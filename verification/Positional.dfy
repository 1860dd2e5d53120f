/** Base-32 positional notation, five bits to a digit. */
module Positional {

  function Pow32(w: nat): (p: nat)
    ensures p >= 1
  {
    if w == 0 then 1 else 32 * Pow32(w - 1)
  }

  /** The low `w` digits of `n`, most significant first. */
  function Digits(n: int, w: nat): (d: seq<nat>)
    ensures |d| == w
    ensures forall i :: 0 <= i < w ==> d[i] < 32
    decreases w
  {
    if w == 0 then [] else Digits(n / 32, w - 1) + [n % 32]
  }

  /** Strict lexicographic order on digit sequences. */
  predicate DigitsLess(x: seq<nat>, y: seq<nat>)
    requires |x| == |y|
  {
    x != [] && (DigitsLess(x[..|x| - 1], y[..|y| - 1])
                || (x[..|x| - 1] == y[..|y| - 1] && x[|x| - 1] < y[|y| - 1]))
  }

  lemma {:induction false} DigitsSnoc(x: seq<nat>, y: seq<nat>, p: nat, q: nat)
    requires |x| == |y|
    ensures DigitsLess(x + [p], y + [q]) <==> DigitsLess(x, y) || (x == y && p < q)
    ensures x + [p] == y + [q] <==> x == y && p == q
  {
    var n := |x|;
    var s, t := x + [p], y + [q];
    assert s[..n] == x && t[..n] == y && s[n] == p && t[n] == q;
  }

  lemma DivModUnique(a: int, q: int, m: int, r: int)
    requires m > 0 && a == q * m + r && 0 <= r < m
    ensures a / m == q && a % m == r
  {
    var d := q - a / m;
    assert a == (a / m) * m + a % m;
    assert d * m == a % m - r;
    assert -m < d * m < m;
  }

  /** Cutting the low digit first and reducing the rest is the same as reducing the whole. */
  lemma ModSplit(a: int, p: nat)
    requires p >= 1
    ensures a % (32 * p) == ((a / 32) % p) * 32 + a % 32
  {
    var q := a / 32;
    var s, t := q / p, q % p;
    assert q == s * p + t;
    assert a == s * (32 * p) + (t * 32 + a % 32) by {
      assert s * (32 * p) == 32 * (s * p);
    }
    DivModUnique(a, s, 32 * p, t * 32 + a % 32);
  }

  /** What is left of `n` in `w` digits, digit by digit. */
  function Residue(n: int, w: nat): (r: nat)
    decreases w
  {
    if w == 0 then 0 else Residue(n / 32, w - 1) * 32 + n % 32
  }

  lemma {:induction false} ResidueIsMod(n: int, w: nat)
    ensures Residue(n, w) == n % Pow32(w)
    decreases w
  {
    if w > 0 {
      ResidueIsMod(n / 32, w - 1);
      ModSplit(n, Pow32(w - 1));
    }
  }

  /** Digit order is exactly the order of the residues. */
  lemma {:induction false} DigitsOrder(a: int, c: int, w: nat)
    ensures DigitsLess(Digits(a, w), Digits(c, w)) <==> Residue(a, w) < Residue(c, w)
    ensures Digits(a, w) == Digits(c, w) <==> Residue(a, w) == Residue(c, w)
    decreases w
  {
    if w > 0 {
      DigitsOrder(a / 32, c / 32, w - 1);
      DigitsSnoc(Digits(a / 32, w - 1), Digits(c / 32, w - 1), a % 32, c % 32);
    }
  }
}
