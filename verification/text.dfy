/** The JavaScript string built-ins the game relies on: `Number.prototype.toString`
    for non-negative integers, `String.prototype.padStart`, `String.prototype.replace`
    with a string pattern, and `String.prototype.repeat` of a single glyph. */
module Text {
  import opened Results

  predicate IsDigit(c: char) {
    '0' <= c <= '9'
  }

  predicate AllDigits(s: string) {
    forall i :: 0 <= i < |s| ==> IsDigit(s[i])
  }

  function DigitChar(d: nat): (c: char)
    requires d < 10
    ensures IsDigit(c)
  {
    ('0' as int + d) as char
  }

  function DigitValue(c: char): (d: nat)
    requires IsDigit(c)
    ensures d < 10
  {
    c as int - '0' as int
  }

  /** Decimal rendering of a non-negative integer, as `n.toString()`. */
  function NatToString(n: nat): (s: string)
    ensures |s| >= 1
    ensures AllDigits(s)
    ensures |s| > 1 ==> s[0] != '0'
    decreases n
  {
    if n < 10 then [DigitChar(n)] else NatToString(n / 10) + [DigitChar(n % 10)]
  }

  /** Value of a string of decimal digits, leading zeros allowed. */
  function ParseDecimal(s: string): nat
    requires AllDigits(s)
    decreases |s|
  {
    if |s| == 0 then 0 else ParseDecimal(s[..|s| - 1]) * 10 + DigitValue(s[|s| - 1])
  }

  /** Parsing undoes `NatToString`: the rendering is faithful. */
  lemma {:induction false} ParseNatToString(n: nat)
    ensures ParseDecimal(NatToString(n)) == n
    decreases n
  {
    if n >= 10 {
      var s := NatToString(n);
      assert s[..|s| - 1] == NatToString(n / 10);
      ParseNatToString(n / 10);
    }
  }

  /** Distinct numbers render to distinct strings. */
  lemma NatToStringInjective(m: nat, n: nat)
    requires NatToString(m) == NatToString(n)
    ensures m == n
  {
    ParseNatToString(m);
    ParseNatToString(n);
  }

  /** Decimal text of an integer, with a leading minus when negative. */
  function IntToString(n: int): (s: string)
    ensures |s| >= 1
  {
    if n < 0 then "-" + NatToString(-n) else NatToString(n)
  }

  function RepeatChar(c: char, k: nat): (r: string)
    ensures |r| == k
    ensures forall i :: 0 <= i < k ==> r[i] == c
  {
    if k == 0 then [] else RepeatChar(c, k - 1) + [c]
  }

  /** `s.padStart(targetLength, fill)` for a one-character fill string. */
  function PadStart(s: string, targetLength: nat, fill: char): (r: string)
    ensures |r| == if |s| >= targetLength then |s| else targetLength
    ensures r[|r| - |s|..] == s
    ensures forall i :: 0 <= i < |r| - |s| ==> r[i] == fill
  {
    if |s| >= targetLength then s else RepeatChar(fill, targetLength - |s|) + s
  }

  /** Leading zeros do not change the value of a decimal string. */
  lemma {:induction false} LeadingZerosIgnored(k: nat, s: string)
    requires AllDigits(s)
    ensures AllDigits(RepeatChar('0', k) + s)
    ensures ParseDecimal(RepeatChar('0', k) + s) == ParseDecimal(s)
    decreases |s|
  {
    var z := RepeatChar('0', k);
    if |s| == 0 {
      assert z + s == z;
      ZerosParseToZero(k);
    } else {
      var t := z + s;
      assert t[..|t| - 1] == z + s[..|s| - 1];
      LeadingZerosIgnored(k, s[..|s| - 1]);
    }
  }

  lemma {:induction false} ZerosParseToZero(k: nat)
    ensures AllDigits(RepeatChar('0', k))
    ensures ParseDecimal(RepeatChar('0', k)) == 0
    decreases k
  {
    if k > 0 {
      assert RepeatChar('0', k)[..k - 1] == RepeatChar('0', k - 1);
      ZerosParseToZero(k - 1);
    }
  }

  predicate OccursAt(s: string, pattern: string, at: nat) {
    at + |pattern| <= |s| && s[at..at + |pattern|] == pattern
  }

  /** First position at or after `from` where `pattern` occurs. */
  function FindFrom(s: string, pattern: string, from: nat): (r: Option<nat>)
    ensures r.Some? ==> from <= r.value && OccursAt(s, pattern, r.value)
    ensures r.Some? ==> forall q :: from <= q < r.value ==> !OccursAt(s, pattern, q)
    ensures r.None? ==> forall q :: from <= q ==> !OccursAt(s, pattern, q)
    decreases |s| - from
  {
    if from + |pattern| > |s| then None
    else if s[from..from + |pattern|] == pattern then Some(from)
    else FindFrom(s, pattern, from + 1)
  }

  /** `s.replace(pattern, replacement)` with a string pattern: only the first
      occurrence is replaced, and a string without it is returned unchanged.
      The replacement is taken literally (no `$` sequences occur in the
      digit strings the game substitutes). */
  function ReplaceFirst(s: string, pattern: string, replacement: string): (r: string)
  {
    match FindFrom(s, pattern, 0)
    case None => s
    case Some(p) => s[..p] + replacement + s[p + |pattern|..]
  }

  /** Result of a replacement, stated against the first occurrence. */
  lemma ReplaceFirstSpec(s: string, pattern: string, replacement: string, p: nat)
    requires OccursAt(s, pattern, p)
    requires forall q: nat :: q < p ==> !OccursAt(s, pattern, q)
    ensures ReplaceFirst(s, pattern, replacement) == s[..p] + replacement + s[p + |pattern|..]
  {
    var f := FindFrom(s, pattern, 0);
    assert f == Some(p);
  }

  /** Without an occurrence the string is returned unchanged. */
  lemma ReplaceFirstAbsent(s: string, pattern: string, replacement: string)
    requires forall q: nat :: !OccursAt(s, pattern, q)
    ensures ReplaceFirst(s, pattern, replacement) == s
  {
  }
}
