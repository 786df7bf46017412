/** The pieces of the Java standard library the person table relies on:
    nullable references, the 32-bit `int`, `String.trim()` and
    `Integer.toString`. */
module JavaLang {

  /** A Java reference that may be `null`. */
  datatype Option<+T> = None | Some(value: T)

  /** Java's `int`. */
  newtype int32 = x: int | -0x8000_0000 <= x < 0x8000_0000

  /** The characters `String.trim()` strips: every code unit at or below U+0020. */
  predicate IsTrimmable(c: char) {
    c <= ' '
  }

  /** The first loop of `String.trim()`: skip trimmable characters at the front. */
  function TrimLeading(s: string): (r: string)
    ensures |r| <= |s| && r == s[|s| - |r|..]
    ensures forall i :: 0 <= i < |s| - |r| ==> IsTrimmable(s[i])
    ensures r != [] ==> !IsTrimmable(r[0])
  {
    if s != [] && IsTrimmable(s[0]) then TrimLeading(s[1..]) else s
  }

  /** The second loop of `String.trim()`: drop trimmable characters at the back. */
  function TrimTrailing(s: string): (r: string)
    ensures |r| <= |s| && r == s[..|r|]
    ensures forall i :: |r| <= i < |s| ==> IsTrimmable(s[i])
    ensures r != [] ==> !IsTrimmable(r[|r| - 1])
  {
    if s != [] && IsTrimmable(s[|s| - 1]) then TrimTrailing(s[..|s| - 1]) else s
  }

  /** `r` is `s[a..b]` and only trimmable characters lie outside it. */
  predicate TrimmedSlice(s: string, r: string, a: int, b: int) {
    0 <= a <= b <= |s| && r == s[a..b] &&
    (forall i :: 0 <= i < a ==> IsTrimmable(s[i])) &&
    (forall i :: b <= i < |s| ==> IsTrimmable(s[i]))
  }

  /** `String.trim()`: the result is empty exactly when every character is
      trimmable, and otherwise starts and ends with a character that is not. */
  function Trim(s: string): (r: string)
    ensures |r| <= |s|
    ensures r == [] <==> forall i :: 0 <= i < |s| ==> IsTrimmable(s[i])
    ensures r != [] ==> !IsTrimmable(r[0]) && !IsTrimmable(r[|r| - 1])
  {
    var lead := TrimLeading(s);
    var r := TrimTrailing(lead);
    r
  }

  /** `trim()` returns a slice of its argument with only trimmable
      characters cut off at either end. */
  lemma TrimIsSlice(s: string)
    ensures exists a, b :: TrimmedSlice(s, Trim(s), a, b)
  {
    var lead := TrimLeading(s);
    var r := TrimTrailing(lead);
    BothEndsTrimmed(s, lead, r);
    assert Trim(s) == r;
    assert TrimmedSlice(s, Trim(s), |s| - |lead|, |s| - |lead| + |r|);
  }

  /** A trimmable prefix run followed by a trimmable suffix run leaves a
      slice of the original. */
  lemma BothEndsTrimmed(s: string, lead: string, r: string)
    requires |lead| <= |s| && lead == s[|s| - |lead|..]
    requires forall i :: 0 <= i < |s| - |lead| ==> IsTrimmable(s[i])
    requires |r| <= |lead| && r == lead[..|r|]
    requires forall i :: |r| <= i < |lead| ==> IsTrimmable(lead[i])
    ensures TrimmedSlice(s, r, |s| - |lead|, |s| - |lead| + |r|)
  {
    var a := |s| - |lead|;
    assert r == s[a..a + |r|];
    forall i | a + |r| <= i < |s|
      ensures IsTrimmable(s[i])
    {
      assert s[i] == lead[i - a];
    }
  }

  /** The name test of the person record: `s == null || s.trim().length() == 0`. */
  predicate IsBlank(s: Option<string>) {
    s.None? || |Trim(s.value)| == 0
  }

  /** A name is blank exactly when it is null or holds no character above U+0020. */
  lemma BlankIffNoVisibleChar(s: Option<string>)
    ensures IsBlank(s) <==> s.None? || forall i :: 0 <= i < |s.value| ==> s.value[i] <= ' '
  {
  }

  /** Decimal digits. */
  function DigitChar(d: nat): (c: char)
    requires d < 10
    ensures '0' <= c <= '9'
  {
    "0123456789"[d]
  }

  function DigitValue(c: char): (d: nat)
    requires '0' <= c <= '9'
    ensures d < 10 && DigitChar(d) == c
  {
    (c - '0') as nat
  }

  predicate IsDigits(s: string) {
    forall i :: 0 <= i < |s| ==> '0' <= s[i] <= '9'
  }

  /** The shortest decimal rendering of a natural number. */
  function Decimal(n: nat): (r: string)
    ensures |r| >= 1 && IsDigits(r)
    ensures r[0] == '0' ==> n == 0
  {
    if n < 10 then [DigitChar(n)] else Decimal(n / 10) + [DigitChar(n % 10)]
  }

  /** Reads a string of decimal digits back as a number. */
  function ParseDecimal(s: string): nat
    requires IsDigits(s)
  {
    if s == [] then 0 else ParseDecimal(s[..|s| - 1]) * 10 + DigitValue(s[|s| - 1])
  }

  /** Reading the decimal rendering of `n` gives `n` back. */
  lemma {:induction false} DecimalRoundTrip(n: nat)
    ensures ParseDecimal(Decimal(n)) == n
  {
    if n >= 10 {
      var q, r := n / 10, n % 10;
      assert n == q * 10 + r;
      DecimalRoundTrip(q);
      var prefix, last := Decimal(q), DigitChar(r);
      var s := prefix + [last];
      assert s == Decimal(n);
      assert s[..|s| - 1] == prefix && s[|s| - 1] == last;
      assert DigitValue(last) == r;
      assert ParseDecimal(s) == q * 10 + r;
    }
  }

  /** Zeros in front do not change the value read. */
  lemma {:induction false} LeadingZerosIgnored(z: nat, s: string)
    requires IsDigits(s)
    ensures IsDigits(Zeros(z) + s) && ParseDecimal(Zeros(z) + s) == ParseDecimal(s)
  {
    if s == [] {
      assert Zeros(z) + s == Zeros(z);
      ZerosReadAsZero(z);
    } else {
      var t := Zeros(z) + s;
      assert t[..|t| - 1] == Zeros(z) + s[..|s| - 1];
      LeadingZerosIgnored(z, s[..|s| - 1]);
    }
  }

  function Zeros(n: nat): (r: string)
    ensures |r| == n && IsDigits(r)
  {
    if n == 0 then [] else Zeros(n - 1) + ['0']
  }

  lemma {:induction false} ZerosReadAsZero(n: nat)
    ensures ParseDecimal(Zeros(n)) == 0
  {
    if n > 0 {
      ZerosReadAsZero(n - 1);
      assert Zeros(n)[..n - 1] == Zeros(n - 1);
    }
  }

  /** Powers of ten, for lengths of renderings. */
  function Pow10(k: nat): (p: nat)
    ensures p >= 1
  {
    if k == 0 then 1 else 10 * Pow10(k - 1)
  }

  /** A number below `10^k` has at most `k` digits, and one at or above has more. */
  lemma {:induction false} DecimalLength(n: nat, k: nat)
    requires k >= 1
    ensures n < Pow10(k) <==> |Decimal(n)| <= k
  {
    if n >= 10 && k >= 2 {
      DecimalLength(n / 10, k - 1);
    } else if n >= 10 {
      assert |Decimal(n)| == |Decimal(n / 10)| + 1;
    }
  }

  /** `Integer.toString(int)`. */
  function IntText(n: int32): (r: string)
    ensures |r| >= 1
  {
    if n < 0 then "-" + Decimal(-(n as int)) else Decimal(n as nat)
  }

  /** `Integer.parseInt` on the strings `IntText` produces. */
  function ParseInt(s: string): int
    requires |s| >= 1 && (s[0] == '-' ==> IsDigits(s[1..])) && (s[0] != '-' ==> IsDigits(s))
  {
    if s[0] == '-' then -(ParseDecimal(s[1..]) as int) else ParseDecimal(s)
  }

  /** The rendering of an id reads back as the same id. */
  lemma IntTextRoundTrip(n: int32)
    ensures var t := IntText(n); |t| >= 1 && (t[0] == '-' ==> IsDigits(t[1..])) && (t[0] != '-' ==> IsDigits(t))
    ensures ParseInt(IntText(n)) == n as int
  {
    if n < 0 {
      NegativeTextRoundTrip(-(n as int));
    } else {
      NonNegativeTextRoundTrip(n as nat);
    }
  }

  lemma NegativeTextRoundTrip(m: nat)
    ensures var t := "-" + Decimal(m);
      t[0] == '-' && IsDigits(t[1..]) && ParseInt(t) == -(m as int)
  {
    var digits := Decimal(m);
    var t := "-" + digits;
    assert t[1..] == digits;
    DecimalRoundTrip(m);
  }

  lemma NonNegativeTextRoundTrip(m: nat)
    ensures var t := Decimal(m); t[0] != '-' && IsDigits(t) && ParseInt(t) == m
  {
    DecimalRoundTrip(m);
  }
}
