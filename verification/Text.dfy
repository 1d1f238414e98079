/** C strings and their pieces.

    A C `char` is a Dafny `char`.  Only values below 256 occur in the program, and
    nothing proved in this project depends on that bound. */
module Text {
  const NUL: char := '\0'
  const BACKSPACE: char := '\U{08}'
  const FORM_FEED: char := '\U{0C}'

  predicate NulFree(s: string) {
    forall i :: 0 <= i < |s| ==> s[i] != NUL
  }

  /** What `strlen`, `strdup` and `strcmp` see of a byte buffer: everything before the first NUL. */
  function CStr(s: string): (r: string)
    ensures r <= s && NulFree(r)
    ensures |r| < |s| ==> s[|r|] == NUL
    ensures NulFree(s) ==> r == s
  {
    if s == "" || s[0] == NUL then "" else
      var t := CStr(s[1..]);
      assert |t| < |s[1..]| ==> s[1..][|t|] == NUL;
      [s[0]] + t
  }

  lemma {:induction false} CStrTerminated(t: string)
    ensures CStr(t + [NUL]) == CStr(t)
  {
    if t != "" {
      assert (t + [NUL])[1..] == t[1..] + [NUL];
      CStrTerminated(t[1..]);
    }
  }

  /** `t` stands in `s` at position `off`. */
  predicate At(s: string, off: nat, t: string) {
    off + |t| <= |s| && forall k :: 0 <= k < |t| ==> s[off + k] == t[k]
  }

  lemma AtSplit(s: string, off: nat, a: string, b: string)
    ensures At(s, off, a + b) <==> At(s, off, a) && At(s, off + |a|, b)
  {
    var t := a + b;
    if At(s, off, t) {
      forall k | 0 <= k < |a| ensures s[off + k] == a[k] { assert t[k] == a[k]; }
      forall k | 0 <= k < |b| ensures s[off + |a| + k] == b[k] { assert t[|a| + k] == b[k]; }
    }
    if At(s, off, a) && At(s, off + |a|, b) {
      forall k | 0 <= k < |t| ensures s[off + k] == t[k] {
        if k >= |a| { assert s[off + |a| + (k - |a|)] == b[k - |a|]; }
      }
    }
  }

  lemma AtChar(s: string, off: nat, t: string, k: nat)
    requires At(s, off, t) && k < |t|
    ensures off + |t| <= |s| && s[off + k] == t[k]
  {
  }

  lemma Regroup(a: string, b: string, c: string, d: string, e: string)
    ensures a + b + c + d + e == a + (b + (c + (d + e)))
  {
  }

  /** `count` copies of one character. */
  function Repeat(c: char, count: nat): (r: string)
    ensures |r| == count && forall i :: 0 <= i < count ==> r[i] == c
  {
    seq(count, _ => c)
  }

  // ---------------------------------------------------------------- decimal text

  function Digit(d: nat): (c: char)
    requires d < 10
    ensures '0' <= c <= '9' && DigitValue(c) == d
  {
    '0' + d as char
  }

  predicate IsDigit(c: char) {
    '0' <= c <= '9'
  }

  function DigitValue(c: char): (d: nat)
    requires IsDigit(c)
    ensures d < 10
  {
    c as int - '0' as int
  }

  predicate AllDigits(s: string) {
    forall i :: 0 <= i < |s| ==> IsDigit(s[i])
  }

  /** The value of a run of decimal digits. */
  function Nat(s: string): (n: nat)
    requires AllDigits(s)
  {
    if s == "" then 0 else 10 * Nat(s[..|s| - 1]) + DigitValue(s[|s| - 1])
  }

  /** `%d` of a non-negative number. */
  function NatText(n: nat): (s: string)
    ensures |s| > 0 && AllDigits(s) && Nat(s) == n
  {
    if n < 10 then
      assert [Digit(n)][..0] == "";
      [Digit(n)]
    else
      var t := NatText(n / 10);
      var s := t + [Digit(n % 10)];
      assert s[..|s| - 1] == t;
      s
  }

  /** `%d`. */
  function IntText(n: int): (s: string)
    ensures |s| > 0 && NulFree(s)
    ensures s[0] == '-' <==> n < 0
  {
    if n < 0 then "-" + NatText(-n) else NatText(n)
  }

  function Pow10(k: nat): (p: nat)
    ensures p > 0
  {
    if k == 0 then 1 else 10 * Pow10(k - 1)
  }

  lemma {:induction false} NatTextLength(n: nat, k: nat)
    requires k > 0 && n < Pow10(k)
    ensures |NatText(n)| <= k
  {
    if n >= 10 {
      assert Pow10(1) == 10 * Pow10(0);
      NatTextLength(n / 10, k - 1);
    }
  }

  /** Decimal text determines the number. */
  lemma IntTextInjective(m: int, n: int)
    requires IntText(m) == IntText(n)
    ensures m == n
  {
    if m < 0 && n < 0 {
      assert IntText(m)[1..] == NatText(-m) && IntText(n)[1..] == NatText(-n);
    }
  }
}
