/**
  The value formatter of the default reporting path, for the integer values this
  model uses: `int.ToString()` for a culture whose negative sign is '-' (an
  optional '-' followed by decimal digits, no leading zeros). It is proved injective and
  self-delimiting, which is what lets a templated message report the offending
  values unambiguously.
*/
module Formatting {

  predicate IsDigit(c: char) {
    '0' <= c <= '9'
  }

  /** The characters `ShowInt` can produce. */
  predicate IsNumeral(c: char) {
    c == '-' || IsDigit(c)
  }

  /** True when `s` cannot continue a numeral: it is empty or starts with a non-numeral character. */
  predicate EndsNumeral(s: string) {
    s == [] || !IsNumeral(s[0])
  }

  function DigitValue(c: char): (d: int)
    requires IsDigit(c)
    ensures 0 <= d < 10
  {
    c as int - '0' as int
  }

  function DigitChar(d: int): (c: char)
    requires 0 <= d < 10
    ensures IsDigit(c) && DigitValue(c) == d
  {
    ('0' as int + d) as char
  }

  predicate AllDigits(s: string) {
    forall i | 0 <= i < |s| :: IsDigit(s[i])
  }

  /** Decimal digits of a natural number, most significant first. */
  function ShowNat(n: nat): (s: string)
    ensures |s| > 0 && AllDigits(s)
    ensures n < 10 <==> |s| == 1
  {
    if n < 10 then [DigitChar(n)] else ShowNat(n / 10) + [DigitChar(n % 10)]
  }

  /** The inverse of `ShowNat`: the value of a string of decimal digits. */
  function ParseNat(s: string): nat
    requires AllDigits(s)
  {
    if s == [] then 0 else 10 * ParseNat(s[..|s| - 1]) + DigitValue(s[|s| - 1])
  }

  lemma {:induction false} ParseShowNat(n: nat)
    ensures ParseNat(ShowNat(n)) == n
  {
    if n >= 10 {
      var s := ShowNat(n);
      assert s[..|s| - 1] == ShowNat(n / 10);
      ParseShowNat(n / 10);
    }
  }

  /** `int.ToString()`: the text a message shows for an integer. */
  function ShowInt(n: int): (s: string)
    ensures |s| > 0 && forall i | 0 <= i < |s| :: IsNumeral(s[i])
    ensures s[0] == '-' <==> n < 0
  {
    if n < 0 then "-" + ShowNat(-n) else ShowNat(n)
  }

  /** Different integers are shown differently. */
  lemma ShowIntInjective(a: int, b: int)
    requires ShowInt(a) == ShowInt(b)
    ensures a == b
  {
    if a < 0 {
      assert ShowInt(a)[1..] == ShowNat(-a);
      assert ShowInt(b)[1..] == ShowNat(-b);
      ParseShowNat(-a);
      ParseShowNat(-b);
    } else {
      ParseShowNat(a);
      ParseShowNat(b);
    }
  }

  /**
    A shown integer followed by text that does not continue a numeral can be
    split in one way only: the integer and the rest are both determined.
  */
  lemma ShowIntPrefixUnique(a: int, b: int, x: string, y: string)
    requires EndsNumeral(x) && EndsNumeral(y)
    requires ShowInt(a) + x == ShowInt(b) + y
    ensures a == b && x == y
  {
    var sa, sb := ShowInt(a), ShowInt(b);
    if |sa| < |sb| {
      ShorterShowIntDiffers(a, b, x, y);
      assert false;
    } else if |sb| < |sa| {
      ShorterShowIntDiffers(b, a, y, x);
      assert false;
    }
    assert sa == (sa + x)[..|sa|] && sb == (sb + y)[..|sb|];
    assert x == (sa + x)[|sa|..] && y == (sb + y)[|sb|..];
    ShowIntInjective(a, b);
  }

  lemma ShorterShowIntDiffers(a: int, b: int, x: string, y: string)
    requires |ShowInt(a)| < |ShowInt(b)| && EndsNumeral(x)
    ensures ShowInt(a) + x != ShowInt(b) + y
  {
    var sa, sb := ShowInt(a), ShowInt(b);
    if x != [] {
      assert (sa + x)[|sa|] == x[0];
      assert (sb + y)[|sa|] == sb[|sa|];
    }
  }

  /**
    A message `prefix + a + mid + b + "."` (the shape of every two-value template
    of the library) determines both values, provided `mid` does not continue a
    numeral.
  */
  lemma TwoValueMessageDetermines(prefix: string, mid: string, a: int, b: int, c: int, d: int)
    requires mid != [] && !IsNumeral(mid[0])
    requires prefix + ShowInt(a) + mid + ShowInt(b) + "." == prefix + ShowInt(c) + mid + ShowInt(d) + "."
    ensures a == c && b == d
  {
    var t1, t2 := ShowInt(b) + ".", ShowInt(d) + ".";
    var r1, r2 := ShowInt(a) + (mid + t1), ShowInt(c) + (mid + t2);
    AppendAssoc5(prefix, ShowInt(a), mid, ShowInt(b), ".");
    AppendAssoc5(prefix, ShowInt(c), mid, ShowInt(d), ".");
    CancelPrefix(prefix, r1, r2);
    ShowIntPrefixUnique(a, c, mid + t1, mid + t2);
    CancelPrefix(mid, t1, t2);
    ShowIntPrefixUnique(b, d, ".", ".");
  }

  lemma CancelPrefix(p: string, x: string, y: string)
    requires p + x == p + y
    ensures x == y
  {
    assert x == (p + x)[|p|..] && y == (p + y)[|p|..];
  }

  /** Reassociates a five-part message so its prefix can be cancelled; stated over variables to keep the step cheap. */
  lemma AppendAssoc5(p: string, a: string, m: string, b: string, e: string)
    ensures p + a + m + b + e == p + (a + (m + (b + e)))
  {
  }

  /** A concatenation starts with its first part and ends with its last. */
  lemma Affixes(p: string, x: string, e: string)
    ensures (p + x + e)[..|p|] == p
    ensures (p + x + e)[|p + x + e| - |e|..] == e
  {
  }

  /** `Affixes` for a message of six parts whose last two are the value and its full stop. */
  lemma MessageAffixes(p: string, a: string, b: string, c: string, v: string, d: string)
    ensures (p + a + b + c + v + d)[..|p|] == p
    ensures (p + a + b + c + v + d)[|p + a + b + c + v + d| - |v| - |d|..] == v + d
  {
    assert p + a + b + c + v + d == p + (a + b + c) + (v + d);
    Affixes(p, a + b + c, v + d);
  }

  /** Two concatenations whose first parts have equal length agree part by part. */
  lemma SplitEqualLengths(x1: string, y1: string, x2: string, y2: string)
    requires |x1| == |x2| && x1 + y1 == x2 + y2
    ensures x1 == x2 && y1 == y2
  {
    assert x1 == (x1 + y1)[..|x1|] && x2 == (x2 + y2)[..|x2|];
    assert y1 == (x1 + y1)[|x1|..] && y2 == (x2 + y2)[|x2|..];
  }
}
