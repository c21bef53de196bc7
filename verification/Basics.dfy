/** What several modules need. */
module Basics {

  type byte = x: int | 0 <= x < 256

  datatype Option<+T> = None | Some(value: T)

  function Min(a: nat, b: nat): nat {
    if a <= b then a else b
  }

  function Pow2(k: nat): (p: nat)
    ensures p >= 1
  {
    if k == 0 then 1 else 2 * Pow2(k - 1)
  }

  lemma ProductGrows(a: nat, b: nat, d: nat)
    requires a <= b
    ensures a * d <= b * d
  {
  }

  lemma MultipleMod(w: nat, q: nat, r: nat)
    requires w > 0 && r < w
    ensures (q * w + r) % w == r
  {
    var n := q * w + r;
    var p := n / w - q;
    assert n % w - r == -(p * w);
    assert p == 0;
  }
}
