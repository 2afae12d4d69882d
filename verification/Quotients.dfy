/** Quotients and remainders by a variable, behind functions so that products stay out of sight. */
module Quotients {

  function Div(v: nat, p: nat): (q: nat)
    requires p > 0
  {
    v / p
  }

  function Mod(v: nat, p: nat): (r: nat)
    requires p > 0
    ensures r < p
  {
    v % p
  }

  lemma DivMeans(v: nat, p: nat)
    requires p > 0
    ensures v == Div(v, p) * p + Mod(v, p)
  {
  }

  lemma ProductGrows(x: nat, y: nat, p: nat)
    requires x <= y
    ensures x * p <= y * p
  {
  }

  lemma DivUnique(v: nat, q: nat, p: nat, r: nat)
    requires v == q * p + r && r < p
    ensures Div(v, p) == q && Mod(v, p) == r
  {
    var d := v / p;
    if d < q {
      ProductGrows(d + 1, q, p);
    } else if q < d {
      ProductGrows(q + 1, d, p);
    }
  }
}
