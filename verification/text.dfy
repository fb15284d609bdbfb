/**
 * The handful of Python string operations the store facade and the shell layer
 * depend on, with Python's own edge cases: `str.find` returning -1, slices with
 * negative or out-of-range bounds, `strip`/`lstrip`, `'%d' % n` and `long(s)`.
 */
module Text {
  import opened Wrappers

  /** `s.find(c)`: the index of the first `c` in `s`, or -1 when there is none. */
  function Find(s: string, c: char): (r: int)
    ensures -1 <= r < |s|
    ensures r == -1 <==> c !in s
    ensures r >= 0 ==> s[r] == c && c !in s[..r]
  {
    if |s| == 0 then -1
    else if s[0] == c then 0
    else
      var k := Find(s[1..], c);
      if k == -1 then -1
      else
        assert s[..k + 1] == [s[0]] + s[1..][..k];
        k + 1
  }

  /** How Python clamps one slice bound against a sequence of length `n`. */
  function SliceBound(i: int, n: nat): (b: nat)
    ensures b <= n
    ensures 0 <= i <= n ==> b == i
    ensures -(n as int) <= i < 0 ==> b == i + n
    ensures i < -(n as int) ==> b == 0
    ensures i > n ==> b == n
  {
    if i < 0 then (if i + n < 0 then 0 else i + n)
    else if i > n then n
    else i
  }

  /** `s[start:stop]` with Python's slice semantics (step 1). */
  function Slice(s: string, start: int, stop: int): (r: string)
    ensures |r| <= |s|
    ensures 0 <= start <= stop <= |s| ==> r == s[start..stop]
    ensures 0 <= start <= |s| < stop ==> r == s[start..]
    ensures 0 <= start && -(|s| as int) <= stop < 0 ==>
      r == if start <= |s| + stop then s[start..|s| + stop] else []
    ensures start >= |s| || stop <= -(|s| as int) || 0 <= stop <= start ==> r == []
    ensures -(|s| as int) <= start < 0 && |s| + start <= stop <= |s| ==> r == s[|s| + start..stop]
    ensures -(|s| as int) <= start < 0 && -(|s| as int) <= stop < 0 ==>
      r == if start < stop then s[|s| + start..|s| + stop] else []
    ensures -(|s| as int) <= start < 0 && 0 <= stop < |s| + start ==> r == []
    ensures -(|s| as int) <= start < 0 && stop > |s| ==> r == s[|s| + start..]
    ensures start <= -(|s| as int) && 0 <= stop <= |s| ==> r == s[..stop]
    ensures start <= -(|s| as int) && -(|s| as int) <= stop < 0 ==> r == s[..|s| + stop]
    ensures start <= -(|s| as int) && stop > |s| ==> r == s
  {
    var i := SliceBound(start, |s|);
    var j := SliceBound(stop, |s|);
    if i < j then s[i..j] else []
  }

  /** The characters `str.strip()` removes when called without arguments. */
  const Whitespace: set<char> := {' ', '\t', '\n', '\r', '\U{0B}', '\U{0C}'}

  /** `s.lstrip(cs)`: the longest suffix of `s` not starting with a character of `cs`. */
  function LStrip(s: string, cs: set<char>): (r: string)
    ensures |r| <= |s| && r == s[|s| - |r|..]
    ensures forall i :: 0 <= i < |s| - |r| ==> s[i] in cs
    ensures |r| > 0 ==> r[0] !in cs
  {
    if |s| > 0 && s[0] in cs then LStrip(s[1..], cs) else s
  }

  /** `s.rstrip(cs)`: the longest prefix of `s` not ending with a character of `cs`. */
  function RStrip(s: string, cs: set<char>): (r: string)
    ensures |r| <= |s| && r == s[..|r|]
    ensures forall i :: |r| <= i < |s| ==> s[i] in cs
    ensures |r| > 0 ==> r[|r| - 1] !in cs
  {
    if |s| > 0 && s[|s| - 1] in cs then RStrip(s[..|s| - 1], cs) else s
  }

  /** `s.strip()`. */
  function Strip(s: string): string {
    RStrip(LStrip(s, Whitespace), Whitespace)
  }

  predicate IsDigit(c: char) {
    '0' <= c <= '9'
  }

  predicate IsDigits(s: string) {
    |s| > 0 && forall i :: 0 <= i < |s| ==> IsDigit(s[i])
  }

  function DigitChar(d: nat): (c: char)
    requires d < 10
    ensures IsDigit(c)
  {
    "0123456789"[d]
  }

  function DigitValue(c: char): (d: nat)
    requires IsDigit(c)
    ensures d < 10
  {
    c as int - '0' as int
  }

  /** `'%d' % n` for a natural number. */
  function NatToString(n: nat): (s: string)
    ensures IsDigits(s)
    decreases n
  {
    if n < 10 then [DigitChar(n)] else NatToString(n / 10) + [DigitChar(n % 10)]
  }

  /** `'%d' % n` (equally `'%s' % n`) for any integer. */
  function IntToString(n: int): (s: string)
    ensures |s| > 0
    ensures s[0] !in Whitespace && s[|s| - 1] !in Whitespace
  {
    if n < 0 then "-" + NatToString(-n) else NatToString(n)
  }

  /** The value of a run of decimal digits, most significant first. */
  function DigitsValue(ds: string): nat
    requires forall i :: 0 <= i < |ds| ==> IsDigit(ds[i])
  {
    if |ds| == 0 then 0 else DigitsValue(ds[..|ds| - 1]) * 10 + DigitValue(ds[|ds| - 1])
  }

  /**
   * Python 2's `long(s)` on text that has already been stripped: an optional
   * sign, any whitespace after the sign, one or more decimal digits and an
   * optional `L` or `l` suffix; anything else is a `ValueError`, here `None`.
   */
  function ParseInt(s: string): Option<int> {
    if |s| > 0 && (s[0] == '-' || s[0] == '+') then
      ReadDigits(s[0] == '-', DropSuffix(LStrip(s[1..], Whitespace)))
    else ReadDigits(false, DropSuffix(s))
  }

  /** The text without its `L` or `l` suffix, when it has one. */
  function DropSuffix(body: string): string {
    if |body| > 0 && body[|body| - 1] in {'L', 'l'} then body[..|body| - 1] else body
  }

  /** The value of one or more decimal digits, negated when `neg`; `None` for anything else. */
  function ReadDigits(neg: bool, ds: string): Option<int> {
    if !IsDigits(ds) then None
    else if neg then Some(-(DigitsValue(ds) as int))
    else Some(DigitsValue(ds))
  }

  lemma {:induction false} DigitsValueOfNatToString(n: nat)
    ensures DigitsValue(NatToString(n)) == n
    decreases n
  {
    if n >= 10 {
      var a := NatToString(n / 10);
      var s := a + [DigitChar(n % 10)];
      assert s[..|s| - 1] == a;
      DigitsValueOfNatToString(n / 10);
      assert DigitValue(DigitChar(n % 10)) == n % 10;
    } else {
      assert DigitValue(DigitChar(n)) == n;
    }
  }

  /** Rendering an integer in decimal and parsing it back gives the integer. */
  lemma ParseIntOfIntToString(n: int)
    ensures ParseInt(IntToString(n)) == Some(n)
  {
    if n < 0 {
      var s := ['-'] + "" + NatToString(-n) + "";
      assert s == IntToString(n) by {
        assert "-" == ['-'];
        assert s == ['-'] + NatToString(-n);
      }
      ParseIntSpacedSign('-', "", -n, "");
    } else {
      ParseIntOfNatToString(n);
    }
  }

  lemma ParseIntOfNatToString(n: nat)
    ensures ParseInt(NatToString(n)) == Some(n)
  {
    var ds := NatToString(n);
    assert IsDigit(ds[0]);
    assert !(ds[0] == '-' || ds[0] == '+');
    DropDigitsSuffix(ds, "");
    assert ds + "" == ds;
    ReadNatToString(false, n);
  }

  /**
   * `long()` in Python 2 skips whitespace after the sign and accepts an `L`
   * suffix: `long("- 5")` is -5 and `long("+7L")` is 7.
   */
  lemma ParseIntSpacedSign(sign: char, pad: string, n: nat, suffix: string)
    requires sign == '-' || sign == '+'
    requires forall i :: 0 <= i < |pad| ==> pad[i] in Whitespace
    requires suffix == "" || suffix == "L" || suffix == "l"
    ensures ParseInt([sign] + pad + NatToString(n) + suffix) == Some(if sign == '-' then -(n as int) else n as int)
  {
    var ds := NatToString(n);
    var s := [sign] + pad + ds + suffix;
    assert s[0] == sign;
    assert s[1..] == pad + (ds + suffix);
    assert IsDigit(ds[0]);
    LStripPadded(pad, ds + suffix);
    DropDigitsSuffix(ds, suffix);
    ReadNatToString(sign == '-', n);
  }

  lemma DropDigitsSuffix(ds: string, suffix: string)
    requires IsDigits(ds)
    requires suffix == "" || suffix == "L" || suffix == "l"
    ensures DropSuffix(ds + suffix) == ds
  {
    var body := ds + suffix;
    if suffix == "" {
      assert body == ds;
      assert IsDigit(ds[|ds| - 1]);
    } else {
      assert body[..|body| - 1] == ds;
    }
  }

  lemma ReadNatToString(neg: bool, n: nat)
    ensures ReadDigits(neg, NatToString(n)) == Some(if neg then -(n as int) else n as int)
  {
    DigitsValueOfNatToString(n);
  }

  /** Whitespace in front of text that does not start with whitespace is exactly what `lstrip` removes. */
  lemma LStripPadded(pad: string, t: string)
    requires forall i :: 0 <= i < |pad| ==> pad[i] in Whitespace
    requires |t| > 0 && t[0] !in Whitespace
    ensures LStrip(pad + t, Whitespace) == t
  {
    var s := pad + t;
    var l := LStrip(s, Whitespace);
    assert s[|pad|] == t[0];
    assert |s| - |l| == |pad|;
  }

  /** Stripping removes exactly the whitespace padding around text that has none at its ends. */
  lemma StripPadded(pre: string, t: string, post: string)
    requires forall i :: 0 <= i < |pre| ==> pre[i] in Whitespace
    requires forall i :: 0 <= i < |post| ==> post[i] in Whitespace
    requires |t| > 0 && t[0] !in Whitespace && t[|t| - 1] !in Whitespace
    ensures Strip(pre + t + post) == t
  {
    var s := pre + t + post;
    var l := LStrip(s, Whitespace);
    var k := |s| - |l|;
    assert s[|pre|] == t[0];
    assert k == |pre|;
    assert l == t + post;
    var r := RStrip(l, Whitespace);
    assert l[|t| - 1] == t[|t| - 1];
    assert |r| == |t|;
    assert r == l[..|t|] == t;
  }

  /**
   * Splitting `line + [c] + rest` at its first `c` gives back `line` and
   * `rest`, when `line` holds no `c`.
   */
  lemma FindAfterLine(line: string, c: char, rest: string)
    requires c !in line
    ensures var s := line + [c] + rest;
      Find(s, c) == |line| && s[..|line|] == line && s[|line| + 1..] == rest
  {
    var s := line + [c] + rest;
    assert s[|line|] == c;
    assert s[..|line|] == line;
    assert s[|line| + 1..] == rest;
  }

  /** A character in neither part is not in their concatenation. */
  lemma NotInConcat(a: string, b: string, c: char)
    requires c !in a && c !in b
    ensures c !in a + b
  {
    assert forall i :: 0 <= i < |a + b| ==> (a + b)[i] == (if i < |a| then a[i] else b[i - |a|]);
  }
}
