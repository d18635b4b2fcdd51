/**
 * Strings as JavaScript compares and builds them: the code-unit order of
 * `<` and of string sorting, suffix tests, and zero-padded decimals.
 */
module Strings {

  /** `a < b` on JavaScript strings: lexicographic order of code units. */
  predicate Below(a: string, b: string)
    decreases |a|
  {
    if |a| == 0 then |b| > 0
    else if |b| == 0 then false
    else if a[0] != b[0] then a[0] < b[0]
    else Below(a[1..], b[1..])
  }

  /** `a >= b`: equal, or `b` comes first. */
  predicate AtLeast(a: string, b: string) {
    a == b || Below(b, a)
  }

  lemma {:induction false} BelowIrreflexive(a: string)
    ensures !Below(a, a)
  {
    if |a| > 0 {
      BelowIrreflexive(a[1..]);
    }
  }

  lemma {:induction false} BelowTransitive(a: string, b: string, c: string)
    requires Below(a, b) && Below(b, c)
    ensures Below(a, c)
  {
    if |a| > 0 && |b| > 0 && |c| > 0 && a[0] == b[0] && b[0] == c[0] {
      BelowTransitive(a[1..], b[1..], c[1..]);
    }
  }

  lemma BelowAsymmetric(a: string, b: string)
    requires Below(a, b)
    ensures !Below(b, a)
  {
    if Below(b, a) {
      BelowTransitive(a, b, a);
      BelowIrreflexive(a);
    }
  }

  lemma {:induction false} BelowTotal(a: string, b: string)
    ensures a == b || Below(a, b) || Below(b, a)
  {
    if |a| > 0 && |b| > 0 && a[0] == b[0] {
      BelowTotal(a[1..], b[1..]);
      assert a == [a[0]] + a[1..] && b == [b[0]] + b[1..];
    }
  }

  /** Comparing two concatenations whose first parts have the same length. */
  lemma {:induction false} BelowConcat(x1: string, y1: string, x2: string, y2: string)
    requires |x1| == |x2|
    ensures Below(x1 + y1, x2 + y2) <==> if x1 == x2 then Below(y1, y2) else Below(x1, x2)
  {
    if |x1| == 0 {
      assert x1 + y1 == y1 && x2 + y2 == y2;
    } else {
      assert (x1 + y1)[1..] == x1[1..] + y1;
      assert (x2 + y2)[1..] == x2[1..] + y2;
      BelowConcat(x1[1..], y1, x2[1..], y2);
      assert x1 == [x1[0]] + x1[1..] && x2 == [x2[0]] + x2[1..];
    }
  }

  /** `s.endsWith(suffix)`. */
  predicate EndsWith(s: string, suffix: string) {
    |suffix| <= |s| && s[|s| - |suffix|..] == suffix
  }

  lemma EndsWithConcat(s: string, suffix: string)
    ensures EndsWith(s + suffix, suffix)
  {
    assert (s + suffix)[|s|..] == suffix;
  }

  predicate IsDigit(c: char) {
    '0' <= c <= '9'
  }

  function DigitChar(d: int): (c: char)
    requires 0 <= d < 10
    ensures IsDigit(c) && c as int == d + '0' as int
  {
    (d + '0' as int) as char
  }

  function Pow10(w: nat): (p: nat)
    ensures p >= 1
  {
    if w == 0 then 1 else 10 * Pow10(w - 1)
  }

  /** The last `width` decimal digits of `n`, zero-padded on the left. */
  function Pad(n: nat, width: nat): (s: string)
    ensures |s| == width
    ensures forall i :: 0 <= i < |s| ==> IsDigit(s[i])
  {
    if width == 0 then [] else Pad(n / 10, width - 1) + [DigitChar(n % 10)]
  }

  /**
   * Zero-padded decimals of one width compare as strings exactly as the
   * numbers compare, and are equal exactly when the numbers are.
   */
  lemma {:induction false} PadOrder(a: nat, b: nat, width: nat)
    requires a < Pow10(width) && b < Pow10(width)
    ensures Below(Pad(a, width), Pad(b, width)) <==> a < b
    ensures Pad(a, width) == Pad(b, width) <==> a == b
  {
    if width == 0 {
    } else {
      var qa, qb := a / 10, b / 10;
      PadOrder(qa, qb, width - 1);
      var da, db := DigitChar(a % 10), DigitChar(b % 10);
      BelowConcat(Pad(qa, width - 1), [da], Pad(qb, width - 1), [db]);
      assert Below([da], [db]) <==> a % 10 < b % 10 by {
        assert [da][1..] == [] && [db][1..] == [];
      }
      if Pad(a, width) == Pad(b, width) {
        assert Pad(a, width)[width - 1] == da && Pad(b, width)[width - 1] == db;
        assert Pad(a, width)[..width - 1] == Pad(qa, width - 1);
        assert Pad(b, width)[..width - 1] == Pad(qb, width - 1);
      }
    }
  }
}
