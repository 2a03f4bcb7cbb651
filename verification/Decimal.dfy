/** Decimal numerals, plain and padded to four digits with zeros, and string order. */
module Decimal {

  function Digit(d: nat): char
    requires d < 10
  {
    ('0' as int + d) as char
  }

  predicate IsDigit(c: char) {
    '0' <= c <= '9'
  }

  predicate AllDigits(s: string) {
    forall i | 0 <= i < |s| :: IsDigit(s[i])
  }

  function Numeral(n: nat): (s: string)
    ensures |s| > 0 && AllDigits(s)
  {
    if n < 10 then [Digit(n)] else Numeral(n / 10) + [Digit(n % 10)]
  }

  /** The number that a string of digits denotes; the empty string denotes zero. */
  function Denotes(s: string): nat
    requires AllDigits(s)
  {
    if s == "" then 0 else Denotes(s[..|s| - 1]) * 10 + (s[|s| - 1] as int - '0' as int)
  }

  lemma {:induction false} NumeralDenotes(n: nat)
    ensures Denotes(Numeral(n)) == n
  {
    if n < 10 {
    } else {
      NumeralDenotes(n / 10);
      assert Numeral(n)[..|Numeral(n)| - 1] == Numeral(n / 10);
    }
  }

  function Zeros(n: nat): (s: string)
    ensures |s| == n && forall i | 0 <= i < n :: s[i] == '0'
  {
    seq(n, i => '0')
  }

  /** `%04d` of a natural number: zeros on the left up to four digits, longer numbers in full. */
  function Padded(n: nat): (s: string)
    ensures AllDigits(s)
  {
    var s := Numeral(n);
    Zeros(if |s| < 4 then 4 - |s| else 0) + s
  }

  lemma {:induction false} ZerosDenoteNothing(n: nat, s: string)
    requires AllDigits(s)
    ensures AllDigits(Zeros(n) + s) && Denotes(Zeros(n) + s) == Denotes(s)
    decreases |s|, n
  {
    var t := Zeros(n) + s;
    if s != "" {
      assert t[..|t| - 1] == Zeros(n) + s[..|s| - 1];
      ZerosDenoteNothing(n, s[..|s| - 1]);
    } else if n > 0 {
      assert t[..|t| - 1] == Zeros(n - 1) + s;
      ZerosDenoteNothing(n - 1, s);
    }
  }

  lemma PaddedDenotes(n: nat)
    ensures Denotes(Padded(n)) == n
  {
    var s := Numeral(n);
    ZerosDenoteNothing(if |s| < 4 then 4 - |s| else 0, s);
    NumeralDenotes(n);
  }

  /** String order: the first difference decides, and a proper prefix comes first. */
  ghost predicate Before(a: string, b: string) {
    exists i | 0 <= i <= |a| && i <= |b| :: FirstDifference(a, b, i)
  }

  ghost predicate FirstDifference(a: string, b: string, i: nat)
    requires i <= |a| && i <= |b|
  {
    a[..i] == b[..i] && i < |b| && (i == |a| || a[i] < b[i])
  }

  /** Digit strings of one length compare as the numbers they denote. */
  lemma {:induction false} OrderOfEqualLengths(a: string, b: string)
    requires AllDigits(a) && AllDigits(b) && |a| == |b|
    requires Denotes(a) < Denotes(b)
    ensures Before(a, b)
  {
    var n := |a| - 1;
    var x, y := a[..n], b[..n];
    if Denotes(x) < Denotes(y) {
      OrderOfEqualLengths(x, y);
      var i :| 0 <= i <= |x| && FirstDifference(x, y, i);
      assert a[..i] == x[..i] && b[..i] == y[..i];
      assert FirstDifference(a, b, i);
    } else {
      EqualNumbersEqualStrings(x, y);
      assert FirstDifference(a, b, n);
    }
  }

  lemma {:induction false} EqualNumbersEqualStrings(a: string, b: string)
    requires AllDigits(a) && AllDigits(b) && |a| == |b|
    requires Denotes(a) >= Denotes(b)
    ensures Denotes(a) == Denotes(b) ==> a == b
  {
    if a != "" && Denotes(a) == Denotes(b) {
      var n := |a| - 1;
      EqualNumbersEqualStrings(a[..n], b[..n]);
      assert a == a[..n] + [a[n]] && b == b[..n] + [b[n]];
    }
  }

  lemma {:induction false} NumeralLength(n: nat, digits: nat)
    requires digits > 0
    ensures |Numeral(n)| <= digits <==> n < Power10(digits)
    decreases digits
  {
    if digits > 1 && n >= 10 {
      NumeralLength(n / 10, digits - 1);
    }
  }

  function Power10(e: nat): (r: nat)
    ensures r >= 1
  {
    if e == 0 then 1 else 10 * Power10(e - 1)
  }

  lemma Multiples(d: nat, gap: int)
    ensures gap >= 1 ==> d * gap >= d
    ensures gap <= -1 ==> d * gap <= -1 * d
  {
  }

  lemma QuotientIs(x: nat, d: nat, q: nat, r: nat)
    requires r < d && x == d * q + r
    ensures x / d == q
  {
    var gap := q - x / d;
    assert d * gap == x % d - r;
    Multiples(d, gap);
  }

  lemma DivideTwice(x: nat, p: nat)
    requires p >= 1
    ensures x / 10 / p == x / (10 * p)
  {
    var q, r := x / 10 / p, x / 10 % p;
    assert x / 10 == p * q + r;
    assert x == (10 * p) * q + (10 * r + x % 10);
    QuotientIs(x, 10 * p, q, 10 * r + x % 10);
  }

  /** Dropping the last `j` digits divides by their power of ten. */
  lemma {:induction false} PrefixDenotes(s: string, j: nat)
    requires AllDigits(s) && j <= |s|
    ensures Denotes(s[..|s| - j]) == Denotes(s) / Power10(j)
  {
    if j == 0 {
      assert s[..|s|] == s;
    } else {
      var front := s[..|s| - 1];
      assert Denotes(s) / 10 == Denotes(front);
      PrefixDenotes(front, j - 1);
      assert front[..|front| - (j - 1)] == s[..|s| - j];
      DivideTwice(Denotes(s), Power10(j - 1));
    }
  }

  lemma PaddedLengths(m: nat, n: nat)
    requires m <= n
    ensures |Padded(m)| <= |Padded(n)|
  {
    NumeralLength(n, |Numeral(n)|);
    NumeralLength(m, |Numeral(n)|);
  }

  lemma BeforeExtends(a: string, b: string, n: nat)
    requires |a| <= n <= |b| && Before(a, b[..n])
    ensures Before(a, b)
  {
    var i :| 0 <= i <= |a| && i <= n && FirstDifference(a, b[..n], i);
    assert b[..i] == b[..n][..i];
    assert FirstDifference(a, b, i);
  }

  lemma NotBefore(a: string, b: string, i: nat)
    requires i < |a| && i < |b| && a[..i] == b[..i] && b[i] < a[i]
    ensures !Before(a, b)
  {
    forall j | 0 <= j <= |a| && j <= |b| ensures !FirstDifference(a, b, j) {
      if j > i {
        assert a[..j][i] != b[..j][i];
      } else if j < i {
        assert a[..i][j] == b[..i][j];
      }
    }
  }

  lemma NotBeforeExtends(a: string, b: string)
    requires |a| <= |b| && Before(b[..|a|], a)
    ensures !Before(a, b)
  {
    var i :| 0 <= i <= |a| && FirstDifference(b[..|a|], a, i);
    assert b[..i] == b[..|a|][..i];
    NotBefore(a, b, i);
  }

  /** A string compares with a longer one as with that one's prefix, which comes first on a tie. */
  lemma BeforeLonger(a: string, b: string)
    requires AllDigits(a) && AllDigits(b) && |a| <= |b| && a != b
    ensures Before(a, b) <==> Denotes(a) <= Denotes(b[..|a|])
  {
    var p := b[..|a|];
    if Denotes(a) < Denotes(p) {
      OrderOfEqualLengths(a, p);
      BeforeExtends(a, b, |a|);
    } else if Denotes(a) == Denotes(p) {
      EqualNumbersEqualStrings(a, p);
      assert FirstDifference(a, b, |a|);
    } else {
      OrderOfEqualLengths(p, a);
      NotBeforeExtends(a, b);
    }
  }

  /** Exactly when names sort as numbers: the smaller number must not exceed the larger one cut to
      the same number of digits. Below 10000 all names have four digits and nothing is cut. */
  lemma PaddedOrderIff(m: nat, n: nat)
    requires m < n
    ensures |Padded(m)| <= |Padded(n)|
    ensures Before(Padded(m), Padded(n)) <==> m <= n / Power10(|Padded(n)| - |Padded(m)|)
  {
    var a, b := Padded(m), Padded(n);
    PaddedLengths(m, n);
    PaddedDenotes(m);
    PaddedDenotes(n);
    BeforeLonger(a, b);
    PrefixDenotes(b, |b| - |a|);
  }

  lemma {:induction false} NoLeadingZero(n: nat)
    requires n > 0
    ensures Numeral(n)[0] != '0'
  {
    if n < 10 {
    } else {
      NoLeadingZero(n / 10);
    }
  }

  /** The width of `%04d`: four digits up to 9999, and from 10000 on no padding at all. */
  lemma PaddedWidth(n: nat)
    ensures n < 10000 ==> |Padded(n)| == 4
    ensures n >= 10000 ==> |Padded(n)| > 4 && Padded(n)[0] != '0'
  {
    assert Power10(4) == 10000;
    NumeralLength(n, 4);
    if n > 0 {
      NoLeadingZero(n);
    }
  }

  /** In particular while both have at most four digits. */
  lemma PaddedOrder(m: nat, n: nat)
    requires m < n < 10000
    ensures Before(Padded(m), Padded(n))
  {
    PaddedWidth(m);
    PaddedWidth(n);
    PaddedOrderIff(m, n);
  }

  /** Where two strings part, when neither or only the first is a prefix of the other. */
  lemma {:induction false} Part(a: string, b: string, from: nat) returns (i: nat)
    requires from <= |a| <= |b| && a != b && a[..from] == b[..from]
    ensures i <= |a| && a[..i] == b[..i]
    ensures if i == |a| then |a| < |b| else a[i] != b[i]
    decreases |a| - from
  {
    if from == |a| {
      i := from;
      assert a == a[..from];
      assert b == b[..from] + b[from..];
    } else if a[from] != b[from] {
      i := from;
    } else {
      assert a[..from + 1] == a[..from] + [a[from]] && b[..from + 1] == b[..from] + [b[from]];
      i := Part(a, b, from + 1);
    }
  }

  /** A common prefix, and a common suffix that sorts before digits, do not change the order. */
  lemma WrappedOrder(prefix: string, a: string, b: string, suffix: string)
    requires AllDigits(a) && AllDigits(b) && |a| <= |b| && a != b
    requires suffix != "" && suffix[0] < '0'
    ensures Before(prefix + a + suffix, prefix + b + suffix) <==> Before(a, b)
  {
    var i := Part(a, b, 0);
    var x, y, p := prefix + a + suffix, prefix + b + suffix, |prefix| + i;
    assert x[..p] == prefix + a[..i] && y[..p] == prefix + b[..i];
    assert y[p] == b[i];
    if i < |a| && b[i] < a[i] {
      NotBefore(a, b, i);
      NotBefore(x, y, p);
    } else {
      assert FirstDifference(a, b, i);
      assert FirstDifference(x, y, p);
    }
  }
}
