/**
 * Money as integer cents.
 *
 * The source reads every amount with `Number(cell.replace("$", ""))` and checks a row
 * with `Number((gross - fee).toFixed(2)) !== net`. Here amounts are cents: `ParseCents`
 * reads the plain decimal numerals an export contains, and `ToFixed2` prints a cent
 * amount the way `toFixed(2)` does, so the check becomes exact equality of cents.
 */
module Money {
  import opened Wrappers
  import opened Text

  /** Up to two decimals as cents: "5" is 50 cents, "05" is 5. */
  function FractionCents(f: string): (c: nat)
    requires |f| <= 2 && AllDigits(f)
    ensures c < 100
  {
    if |f| == 0 then 0
    else if |f| == 1 then 10 * DigitValue(f[0])
    else 10 * DigitValue(f[0]) + DigitValue(f[1])
  }

  predicate AllZeros(s: string) { forall i :: 0 <= i < |s| ==> s[i] == '0' }

  /**
   * An unsigned decimal numeral: digits, then optionally a point and more digits, with at
   * least one digit in all ("5", "5.", ".5", "5.25"). `None` where `Number` yields NaN,
   * and also for a value that is not a whole number of cents.
   */
  function UnsignedCents(u: string): (r: Option<nat>)
    ensures u == [] ==> r.None?
  {
    var a := DigitRun(u, 0);
    if a == |u| then
      if a == 0 then None else Some(DecimalValue(u) * 100)
    else if u[a] != '.' then None
    else
      var f := u[a + 1..];
      if !AllDigits(f) || (a == 0 && f == []) then None
      else if |f| > 2 && !AllZeros(f[2..]) then None
      else
        assert AllDigits(u[..a]) by {
          forall i | 0 <= i < a ensures IsDigit(u[..a][i]) {
            assert u[..a][i] == u[i];
          }
        }
        var cents := if |f| <= 2 then f else f[..2];
        Some(DecimalValue(u[..a]) * 100 + FractionCents(cents))
  }

  /** An optional sign in front of an unsigned numeral. */
  function SignedCents(t: string): (r: Option<int>)
    ensures t == [] ==> r == Some(0)
    ensures r.Some? && t != [] && t[0] == '-' ==> r.value <= 0
    ensures r.Some? && (t == [] || t[0] != '-') ==> r.value >= 0
  {
    if t == [] then Some(0)
    else
      var neg := t[0] == '-';
      var u := if t[0] == '-' || t[0] == '+' then t[1..] else t;
      match UnsignedCents(u)
      case None => None
      case Some(v) => Some(if neg then -(v as int) else v as int)
  }

  /**
   * `Number(s)` in cents: white space around the numeral is ignored, an empty or blank
   * text is 0, and a leading sign is allowed.
   */
  function ParseCents(s: string): (r: Option<int>)
    ensures Trim(s) == [] ==> r == Some(0)
  {
    SignedCents(Trim(s))
  }

  function Abs(c: int): nat { if c < 0 then -c else c }

  /** The two decimals of a cent amount. */
  function Decimals(c: nat): (r: string)
    ensures |r| == 2 && AllDigits(r) && FractionCents(r) == c % 100
  {
    [Digit(c % 100 / 10), Digit(c % 10)]
  }

  /** `toFixed(2)` of a non-negative amount of `c` cents: the whole part, a point and two decimals. */
  function FixedUnsigned(c: nat): (r: string)
    ensures |r| >= 4 && r[|r| - 3] == '.'
    ensures IsDigit(r[0]) && IsDigit(r[|r| - 1])
  {
    var digits := DecimalString(c / 100);
    var r := digits + ("." + Decimals(c));
    assert r[0] == digits[0];
    r
  }

  /** `toFixed(2)` of an amount of `c` cents: a minus sign for a negative amount, then its magnitude. */
  function ToFixed2(c: int): (r: string)
    ensures |r| >= 4 && r[|r| - 3] == '.'
    ensures c < 0 <==> r[0] == '-'
  {
    (if c < 0 then "-" else "") + FixedUnsigned(Abs(c))
  }

  /** Reading back the printed digits, point and decimals gives the amount. */
  lemma UnsignedOfFixed(c: nat)
    ensures UnsignedCents(FixedUnsigned(c)) == Some(c)
  {
    var d := DecimalString(c / 100);
    var u := FixedUnsigned(c);
    var a := |d|;
    forall j | 0 <= j < a ensures IsDigit(u[j]) {
      assert u[j] == d[j];
    }
    assert u[a] == '.';
    DigitRunIs(u, 0, a);
    assert u[..a] == d;
    assert u[a + 1..] == Decimals(c);
  }

  /** A numeral without surrounding white space and without a sign reads as its unsigned value. */
  lemma ParseUnsigned(u: string, v: nat)
    requires u != [] && IsDigit(u[0]) && IsDigit(u[|u| - 1])
    requires UnsignedCents(u) == Some(v)
    ensures ParseCents(u) == Some(v)
  {
    TrimUnchanged(u);
  }

  /** A minus sign in front of such a numeral negates it. */
  lemma ParseNegative(u: string, v: nat)
    requires u != [] && IsDigit(u[0]) && IsDigit(u[|u| - 1])
    requires UnsignedCents(u) == Some(v)
    ensures ParseCents("-" + u) == Some(-(v as int))
  {
    var t := "-" + u;
    assert t[|t| - 1] == u[|u| - 1];
    TrimUnchanged(t);
    assert t[1..] == u;
  }

  lemma ParseToFixed2Negative(c: int)
    requires c < 0
    ensures ParseCents(ToFixed2(c)) == Some(c)
  {
    var u := FixedUnsigned(-c);
    UnsignedOfFixed(-c);
    assert ToFixed2(c) == "-" + u;
    ParseNegative(u, -c);
  }

  lemma ParseToFixed2NonNegative(c: int)
    requires c >= 0
    ensures ParseCents(ToFixed2(c)) == Some(c)
  {
    var u := FixedUnsigned(c);
    UnsignedOfFixed(c);
    assert ToFixed2(c) == u;
    ParseUnsigned(u, c);
  }

  /**
   * Reading what `toFixed(2)` prints gives back the amount, so the row check
   * `Number((gross - fee).toFixed(2)) !== net` is exact equality of cents.
   */
  lemma ParseToFixed2(c: int)
    ensures ParseCents(ToFixed2(c)) == Some(c)
  {
    if c < 0 {
      ParseToFixed2Negative(c);
    } else {
      ParseToFixed2NonNegative(c);
    }
  }

  /** A whole number of dollars written as plain digits reads as that many hundred cents. */
  lemma {:induction false} ParseWholeDollars(d: string)
    requires d != [] && AllDigits(d)
    ensures ParseCents(d) == Some(DecimalValue(d) * 100)
  {
    TrimUnchanged(d);
    DigitRunIs(d, 0, |d|);
  }

  /** Decimals beyond the second are accepted when they are zeros: "12.500" is 1250 cents. */
  lemma ParseTrailingZeros(c: nat, zeros: string)
    requires AllZeros(zeros)
    ensures UnsignedCents(FixedUnsigned(c) + zeros) == Some(c)
  {
    var d := DecimalString(c / 100);
    var f := Decimals(c) + zeros;
    var u := FixedUnsigned(c) + zeros;
    var a := |d|;
    assert u == d + ("." + f);
    forall j | 0 <= j < a ensures IsDigit(u[j]) {
      assert u[j] == d[j];
    }
    assert u[a] == '.';
    DigitRunIs(u, 0, a);
    assert u[..a] == d;
    assert u[a + 1..] == f;
    assert f[..2] == Decimals(c);
    assert f[2..] == zeros;
  }

  /** Digits, a point and up to two decimals read as that many dollars and cents: "9.5" is 950, ".5" is 50, "05.25" is 525. */
  lemma UnsignedPointed(d: string, f: string)
    requires AllDigits(d) && AllDigits(f) && |f| <= 2 && d + f != []
    ensures UnsignedCents(d + "." + f) == Some(DecimalValue(d) * 100 + FractionCents(f))
  {
    var u := d + "." + f;
    var a := |d|;
    forall j | 0 <= j < a ensures IsDigit(u[j]) {
      assert u[j] == d[j];
    }
    assert u[a] == '.';
    DigitRunIs(u, 0, a);
    assert u[..a] == d;
    assert u[a + 1..] == f;
    assert |d| + |f| > 0;
    assert DigitRun(u, 0) == a < |u| && u[a] == '.' && !(a == 0 && f == []) && |f| <= 2;
  }

  /** A character other than a digit or a point makes the numeral unreadable: "1,234.56" and "12a" read as `None`. */
  lemma UnsignedStrayCharacter(u: string, i: nat)
    requires i < |u| && !IsDigit(u[i]) && u[i] != '.'
    ensures UnsignedCents(u).None?
  {
    var a := DigitRun(u, 0);
    if a < |u| && u[a] == '.' {
      assert i > a;
      assert u[a + 1..][i - a - 1] == u[i];
    }
  }

  /** A second point makes the numeral unreadable: "1.2.3" reads as `None`. */
  lemma UnsignedTwoPoints(u: string, i: nat, j: nat)
    requires i < j < |u| && u[i] == '.' && u[j] == '.'
    ensures UnsignedCents(u).None?
  {
    var a := DigitRun(u, 0);
    if a < |u| && u[a] == '.' {
      assert j > a;
      assert u[a + 1..][j - a - 1] == u[j];
    }
  }

  /** The row check `Number((gross - fee).toFixed(2)) === net`, with `diff` the difference `gross - fee`. */
  predicate ReadsBackAs(diff: int, net: int) {
    ParseCents(ToFixed2(diff)) == Some(net)
  }

  /** A printed amount reads back as `net` exactly when it is `net`. */
  lemma ReadsBackIff(diff: int, net: int)
    ensures ReadsBackAs(diff, net) <==> diff == net
  {
    ParseToFixed2(diff);
  }
}
