/**
 * Decimal rendering of integers in generated names: Go's `%05d`, Python's `:06d` and
 * JavaScript's number-to-string. Every generated name ends in "_" followed by such a number,
 * and the lemmas here are what makes those names collision free.
 */
module Decimal {

  predicate IsDigit(c: char) {
    '0' <= c <= '9'
  }

  predicate AllDigits(s: string) {
    forall i | 0 <= i < |s| :: IsDigit(s[i])
  }

  function Digits(n: nat): (s: string)
    ensures s != [] && AllDigits(s)
  {
    if n < 10 then ['0' + n as char] else Digits(n / 10) + ['0' + (n % 10) as char]
  }

  function Zeros(k: nat): (s: string)
    ensures |s| == k && AllDigits(s)
  {
    seq(k, _ => '0')
  }

  /** Zero-padded to at least `width` characters; longer numbers are not truncated. */
  function Padded(n: nat, width: nat): (s: string)
    ensures AllDigits(s) && |s| >= width && s != []
  {
    var d := Digits(n);
    if |d| >= width then d else Zeros(width - |d|) + d
  }

  function Signed(n: int): string {
    if n < 0 then "-" + Digits(-n) else Digits(n)
  }

  /** The number a digit string denotes; leading zeros do not matter. */
  function Value(s: string): nat
    requires AllDigits(s)
  {
    if s == [] then 0 else 10 * Value(s[..|s| - 1]) + (s[|s| - 1] - '0') as nat
  }

  lemma {:induction false} ValueOfDigits(n: nat)
    ensures Value(Digits(n)) == n
  {
    if n >= 10 {
      ValueOfDigits(n / 10);
      var d := Digits(n);
      assert d[..|d| - 1] == Digits(n / 10);
    }
  }

  lemma {:induction false} ValueOfZeros(k: nat, d: string)
    requires AllDigits(d)
    ensures Value(Zeros(k) + d) == Value(d)
    decreases k + |d|
  {
    var s := Zeros(k) + d;
    if d != [] {
      assert s[..|s| - 1] == Zeros(k) + d[..|d| - 1];
      ValueOfZeros(k, d[..|d| - 1]);
    } else if k > 0 {
      assert s[..|s| - 1] == Zeros(k - 1) + d;
      ValueOfZeros(k - 1, d);
    }
  }

  lemma ValueOfPadded(n: nat, width: nat)
    ensures Value(Padded(n, width)) == n
  {
    hide Digits, Value, AllDigits;
    ValueOfDigits(n);
    if |Digits(n)| < width {
      ValueOfZeros(width - |Digits(n)|, Digits(n));
    }
  }

  lemma PaddedInjective(m: nat, n: nat, width: nat)
    requires Padded(m, width) == Padded(n, width)
    ensures m == n
  {
    hide Padded, Value, AllDigits;
    ValueOfPadded(m, width);
    ValueOfPadded(n, width);
  }

  lemma SignedInjective(m: int, n: int)
    requires Signed(m) == Signed(n)
    ensures m == n
  {
    ValueOfDigits(if m < 0 then -m else m);
    ValueOfDigits(if n < 0 then -n else n);
    assert (m < 0) == (Signed(m)[0] == '-');
    assert (n < 0) == (Signed(n)[0] == '-');
    if m < 0 {
      assert Signed(m)[1..] == Digits(-m) && Signed(n)[1..] == Digits(-n);
    }
  }

  lemma LaterUnderscoreDiffers(p: string, d: string, p': string, d': string)
    requires '_' !in d && |p| < |p'|
    ensures p + "_" + d != p' + "_" + d'
  {
    var s, s' := p + "_" + d, p' + "_" + d';
    if |s| == |s'| {
      assert s'[|p'|] == '_' && s[|p'|] == d[|p'| - |p| - 1];
    }
  }

  /** A name splits in only one way at its last underscore. */
  lemma LastUnderscore(p: string, d: string, p': string, d': string)
    requires '_' !in d && '_' !in d'
    requires p + "_" + d == p' + "_" + d'
    ensures p == p' && d == d'
  {
    if |p| < |p'| {
      LaterUnderscoreDiffers(p, d, p', d');
    } else if |p'| < |p| {
      LaterUnderscoreDiffers(p', d', p, d);
    } else {
      var s := p + "_" + d;
      assert p == s[..|p|] == p' && d == s[|p| + 1..] == d';
    }
  }
}
