/** Weighted byte counts. */
module Pricing {
  /** `n` bytes at weight `w`, as a sum. */
  function Price(w: real, n: nat): real {
    if n == 0 then 0.0 else Price(w, n - 1) + w
  }

  lemma {:induction false} PriceIsProduct(w: real, n: nat)
    ensures Price(w, n) == w * n as real
  {
    if n > 0 {
      PriceIsProduct(w, n - 1);
      OneMore(w, (n - 1) as real);
    }
  }

  lemma OneMore(w: real, x: real)
    ensures w * (x + 1.0) == w * x + w
  {
  }

  lemma {:induction false} PriceAdds(w: real, m: nat, n: nat)
    ensures Price(w, m + n) == Price(w, m) + Price(w, n)
  {
    if n > 0 {
      PriceAdds(w, m, n - 1);
    }
  }

  lemma {:induction false} PriceOrder(w: real, m: nat, n: nat)
    requires w > 0.0 && m < n
    ensures Price(w, m) < Price(w, n)
  {
    if m < n - 1 {
      PriceOrder(w, m, n - 1);
    }
  }

  lemma {:induction false} PriceKeepsOrder(w: real, m: nat, n: nat)
    requires w >= 0.0 && m <= n
    ensures Price(w, m) <= Price(w, n)
  {
    if m < n {
      PriceKeepsOrder(w, m, n - 1);
    }
  }
}
