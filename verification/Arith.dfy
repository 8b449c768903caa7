/** Facts about products that the solver does not find on its own. */
module Arith {

  lemma MultipleMod(q: int, l: nat)
    requires l > 0
    ensures (q * l) % l == 0
  {
    DivUnique(q * l, l, q, (q * l) / l, (q * l) % l);
  }

  lemma DivUnique(x: int, l: nat, q: int, d: int, r: int)
    requires l > 0 && x == q * l && x == l * d + r && 0 <= r < l
    ensures r == 0
  {
    Distribute(q, d, l);
    if q > d { AtLeastOne(q - d, l); }
    if q < d { AtLeastOne(d - q, l); }
  }

  lemma Distribute(q: int, d: int, l: nat)
    ensures (q - d) * l == q * l - l * d
    ensures (d - q) * l == l * d - q * l
  {
  }

  lemma NonNegative(k: int, l: nat)
    requires k >= 0
    ensures k * l >= 0
  {
  }

  lemma AtLeastOne(k: int, l: nat)
    requires k >= 1
    ensures k * l >= l
  {
  }

  lemma ExactQuotient(q: nat, l: nat)
    requires l > 0
    ensures (q * l) / l == q
  {
    MultipleMod(q, l);
    var d := (q * l) / l;
    assert q * l == l * d;
    Distribute(q, d, l);
    if q > d { AtLeastOne(q - d, l); }
    if q < d { AtLeastOne(d - q, l); }
  }

  /** Rows of a row-major grid do not overlap. */
  lemma RowsApart(width: nat, y: int, y': int)
    ensures y < y' ==> y * width + width <= y' * width
  {
    if y < y' {
      AtLeastOne(y' - y, width);
      Distribute(y', y, width);
    }
  }

  ghost function Span(lo: nat, len: nat): (s: set<nat>)
    ensures |s| == len
    ensures forall unit: nat :: unit in s <==> lo <= unit < lo + len
  {
    if len == 0 then {} else Span(lo, len - 1) + {lo + len - 1}
  }

  lemma {:induction false} SubsetSize<T>(a: set<T>, b: set<T>)
    requires a <= b
    ensures |a| <= |b|
  {
    if a != {} {
      var x :| x in a;
      SubsetSize(a - {x}, b - {x});
    }
  }
}
