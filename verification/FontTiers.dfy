/** Which subdirectories of a family are its size tiers (ios/CrossPointFsPrep.cpp). */
module FontTiers {
  import opened FontSeed

  predicate IsDigit(c: char) {
    '0' <= c <= '9'
  }

  /** Decimal digits without a leading zero. */
  predicate IsNumeral(s: string) {
    && s != "" && (|s| > 1 ==> s[0] != '0')
    && forall i :: 0 <= i < |s| ==> IsDigit(s[i])
  }

  /** What a digit stands for; anything else for nothing. */
  function Digit(c: char): nat {
    if IsDigit(c) then c as int - '0' as int else 0
  }

  function Value(s: string): nat {
    if s == "" then 0 else 10 * Value(s[..|s| - 1]) + Digit(s[|s| - 1])
  }

  /** A numeral from 2 up to the build's scale, and an `x`. */
  predicate IsTier(t: string, scale: nat) {
    && t != "" && t[|t| - 1] == 'x'
    && IsNumeral(t[..|t| - 1])
    && 2 <= Value(t[..|t| - 1]) <= scale
  }

  lemma {:induction false} DecimalIsNumeral(n: nat)
    ensures IsNumeral(Decimal(n)) && Value(Decimal(n)) == n
    ensures n > 0 ==> Decimal(n)[0] != '0'
  {
    if n >= 10 {
      DecimalIsNumeral(n / 10);
      var d := Decimal(n / 10);
      assert Decimal(n)[..|Decimal(n)| - 1] == d;
    } else {
      assert Decimal(n)[..0] == "";
    }
  }

  /** No two numerals have one value. */
  lemma {:induction false} NumeralIsDecimal(s: string)
    requires IsNumeral(s)
    ensures Decimal(Value(s)) == s
    ensures |s| > 1 ==> Value(s) >= 10
    decreases |s|
  {
    var init, last := s[..|s| - 1], Digit(s[|s| - 1]);
    assert s == init + [s[|s| - 1]];
    if |s| > 1 {
      NumeralIsDecimal(init);
      LeadingDigitCounts(init);
      assert Value(s) / 10 == Value(init) && Value(s) % 10 == last;
    } else {
      assert Value(init) == 0;
    }
  }

  lemma {:induction false} LeadingDigitCounts(s: string)
    requires IsNumeral(s) && s[0] != '0'
    ensures Value(s) > 0
    decreases |s|
  {
    if |s| > 1 {
      LeadingDigitCounts(s[..|s| - 1]);
    } else {
      assert Value(s[..0]) == 0;
    }
  }

  lemma {:induction false} TiersCount(scale: nat, t: string)
    ensures t in Tiers(scale) <==> exists k :: 2 <= k <= scale && t == Decimal(k) + "x"
    decreases scale
  {
    if scale >= 2 {
      TiersCount(scale - 1, t);
      assert Tiers(scale) == Tiers(scale - 1) + [Decimal(scale) + "x"];
      if t in Tiers(scale - 1) {
        var k :| 2 <= k <= scale - 1 && t == Decimal(k) + "x";
      } else if t == Decimal(scale) + "x" {
        assert 2 <= scale <= scale;
      }
    }
  }

  /** The tiers the seeding loop visits are `2x`, `3x` and so on up to the build's scale. */
  lemma TiersAreNumbered(scale: nat, t: string)
    ensures t in Tiers(scale) <==> IsTier(t, scale)
  {
    hide Tiers, IsNumeral, Value, Decimal;
    TiersCount(scale, t);
    if t in Tiers(scale) {
      var k :| 2 <= k <= scale && t == Decimal(k) + "x";
      DecimalIsNumeral(k);
      assert t[..|t| - 1] == Decimal(k);
    }
    if IsTier(t, scale) {
      NumeralIsDecimal(t[..|t| - 1]);
      assert t == t[..|t| - 1] + "x";
    }
  }

  /** A build of scale 2 or more has the tier `2x`, and no build has `1x` or `02x`. */
  lemma TwoXIsATier(scale: nat)
    ensures IsTier("2x", scale) <==> scale >= 2
    ensures !IsTier("1x", scale) && !IsTier("02x", scale)
  {
    assert "2x"[..1] == "2" && "1x"[..1] == "1" && "02x"[..2] == "02";
    assert "2"[..0] == "" && "1"[..0] == "";
    assert Value("2") == 2 && Value("1") == 1;
  }
}
