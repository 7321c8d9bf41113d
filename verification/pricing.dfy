/**
  Prices and the win rule derived from a market's two pools. Prices are
  exact reals here; the pages compute them in floating point.
 */
module Pricing {

  /**
    The YES price: the YES pool's share of both pools, or one half when both
    pools are empty (script.js price calculation).
   */
  function YesPrice(yes: nat, no: nat): (p: real)
    ensures 0.0 <= p <= 1.0
    ensures yes + no == 0 ==> p == 0.5
    ensures yes + no > 0 ==> p * (yes + no) as real == yes as real
  {
    if yes + no == 0 then 0.5
    else
      var total := (yes + no) as real;
      assert yes as real <= total;
      yes as real / total
  }

  /** The NO price is what the YES price leaves of one. */
  function NoPrice(yes: nat, no: nat): (q: real)
    ensures 0.0 <= q <= 1.0
    ensures q + YesPrice(yes, no) == 1.0
  {
    1.0 - YesPrice(yes, no)
  }

  /** Comparing a quotient by a positive divisor is comparing the dividend with the scaled bound. */
  lemma QuotientAgainst(a: real, t: real, c: real)
    requires t > 0.0
    ensures a / t > c <==> a > c * t
    ensures a / t == c <==> a == c * t
    ensures a / t < c <==> a < c * t
  {
    var q := a / t;
    assert q * t == a;
    if q > c {
      assert (q - c) * t > 0.0;
    } else if q < c {
      assert (c - q) * t > 0.0;
    }
  }

  /** Swapping the pools swaps the prices. */
  lemma NoPriceMirrorsYesPrice(yes: nat, no: nat)
    ensures NoPrice(yes, no) == YesPrice(no, yes)
  {
    if yes + no > 0 {
      var t := (yes + no) as real;
      assert YesPrice(no, yes) == no as real / t;
      QuotientAgainst(no as real, t, 1.0 - yes as real / t);
    }
  }

  /** YES is priced above, at or below one half exactly when its pool is larger, equal or smaller. */
  lemma YesPriceAgainstHalf(yes: nat, no: nat)
    ensures YesPrice(yes, no) > 0.5 <==> yes > no
    ensures YesPrice(yes, no) == 0.5 <==> yes == no
    ensures YesPrice(yes, no) < 0.5 <==> yes < no
  {
    if yes + no > 0 {
      QuotientAgainst(yes as real, (yes + no) as real, 0.5);
    }
  }

  /**
    A resolved market counts as won when the side it resolved to holds the
    larger pool: status 1 (resolved YES) with more in YES, or status 2
    (resolved NO) with more in NO. Equal pools and every other status are not
    wins (leaderboard.js and profile.js use the same rule).
   */
  predicate IsWin(status: nat, yes: nat, no: nat)
  {
    (status == 1 && yes > no) || (status == 2 && no > yes)
  }

  /** A market is won exactly when the side it resolved to is priced above one half. */
  lemma WinMeansWinningSideFavoured(status: nat, yes: nat, no: nat)
    ensures IsWin(status, yes, no) <==>
              (status == 1 && YesPrice(yes, no) > 0.5) || (status == 2 && NoPrice(yes, no) > 0.5)
  {
    YesPriceAgainstHalf(yes, no);
  }
}
