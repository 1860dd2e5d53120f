/** ULID minting (`ids.py`): the text order of ids is the order of (millisecond, randomness). */
module Ulid {
  import opened Text
  import opened Positional

  const CROCKFORD := "0123456789ABCDEFGHJKMNPQRSTVWXYZ"
  const TIME_CHARS := 10
  const RAND_CHARS := 16

  lemma AlphabetIsOrdered()
    ensures |CROCKFORD| == 32
    ensures forall i, j :: 0 <= i < j < 32 ==> CROCKFORD[i] < CROCKFORD[j]
  {
    assert forall i :: 0 <= i < 10 ==> CROCKFORD[i] as int == 48 + i;
    assert forall i :: 10 <= i < 18 ==> CROCKFORD[i] as int == 55 + i;
    assert forall i :: 18 <= i < 32 ==> 74 <= CROCKFORD[i] as int;
    assert CROCKFORD[18..] == "JKMNPQRSTVWXYZ";
    assert forall i :: 18 <= i < 31 ==> CROCKFORD[i] < CROCKFORD[i + 1];
    Ascending(18);
  }

  lemma {:induction false} Ascending(k: nat)
    requires 18 <= k < 32
    requires |CROCKFORD| == 32 && forall i :: 18 <= i < 31 ==> CROCKFORD[i] < CROCKFORD[i + 1]
    ensures forall i, j :: k <= i < j < 32 ==> CROCKFORD[i] < CROCKFORD[j]
    decreases 32 - k
  {
    if k < 31 {
      Ascending(k + 1);
      assert CROCKFORD[k] < CROCKFORD[k + 1];
    }
  }

  /** The text of the low `length` base-32 digits of `value`. */
  function Encoded(value: int, length: nat): (s: string)
    ensures |s| == length
  {
    var d := Digits(value, length);
    seq(length, i requires 0 <= i < length => CROCKFORD[d[i]])
  }

  /** `_encode`: shift out five bits at a time, then reverse. */
  method Encode(value: int, length: nat) returns (s: string)
    ensures s == Encoded(value, length)
  {
    var v, chars: string := value, [];
    ghost var d := Digits(value, length);
    for k := 0 to length
      invariant |chars| == k
      invariant Digits(v, length - k) == d[..length - k]
      invariant forall i :: 0 <= i < k ==> chars[i] == CROCKFORD[d[length - 1 - i]]
    {
      assert Digits(v, length - k) == Digits(v / 32, length - k - 1) + [v % 32];
      assert d[length - k - 1] == v % 32;
      chars := chars + [CROCKFORD[v % 32]];
      v := v / 32;
      assert Digits(v, length - k - 1) == d[..length - k][..length - k - 1];
    }
    s := seq(length, i requires 0 <= i < length => chars[length - 1 - i]);
  }

  ghost predicate Spells(s: string, x: seq<nat>, alphabet: string) {
    |s| == |x| && forall i :: 0 <= i < |x| ==> x[i] < |alphabet| && s[i] == alphabet[x[i]]
  }

  /** An ascending alphabet carries digit order to text order. */
  lemma {:induction false} TextOfDigits(x: seq<nat>, y: seq<nat>, s: string, t: string, alphabet: string)
    requires Spells(s, x, alphabet) && Spells(t, y, alphabet) && |x| == |y|
    requires forall i, j :: 0 <= i < j < |alphabet| ==> alphabet[i] < alphabet[j]
    ensures LexLess(s, t) <==> DigitsLess(x, y)
    ensures s == t <==> x == y
  {
    hide LexLess, DigitsLess;
    if x == [] {
      assert s == t == "" && y == [];
      Shortest();
    } else {
      var n := |x| - 1;
      var s', t' := s[..n], t[..n];
      TextOfDigits(x[..n], y[..n], s', t', alphabet);
      LexSnoc(s', t', s[n], t[n]);
      DigitsSnoc(x[..n], y[..n], x[n], y[n]);
      assert s == s' + [s[n]] && t == t' + [t[n]] && x == x[..n] + [x[n]] && y == y[..n] + [y[n]];
      assert s[n] < t[n] <==> x[n] < y[n];
      assert s[n] == t[n] <==> x[n] == y[n];
    }
  }

  lemma Shortest()
    ensures !LexLess("", "") && !DigitsLess([], [])
  {
  }

  /** For every integer: encoded texts compare exactly as the values modulo 32^length, so the encoding is
      injective and order-preserving precisely on values that fit. */
  lemma EncodeOrder(a: int, b: int, length: nat)
    ensures LexLess(Encoded(a, length), Encoded(b, length)) <==> a % Pow32(length) < b % Pow32(length)
    ensures Encoded(a, length) == Encoded(b, length) <==> a % Pow32(length) == b % Pow32(length)
  {
    DigitsOrder(a, b, length);
    ResidueIsMod(a, length);
    ResidueIsMod(b, length);
    AlphabetIsOrdered();
    TextOfDigits(Digits(a, length), Digits(b, length), Encoded(a, length), Encoded(b, length), CROCKFORD);
  }

  lemma EncodeFits(a: nat, b: nat, length: nat)
    requires a < Pow32(length) && b < Pow32(length)
    ensures LexLess(Encoded(a, length), Encoded(b, length)) <==> a < b
    ensures Encoded(a, length) == Encoded(b, length) <==> a == b
  {
    EncodeOrder(a, b, length);
    DivModUnique(a, 0, Pow32(length), a);
    DivModUnique(b, 0, Pow32(length), b);
  }

  /** `new_ulid` with the clock reading and the ten random bytes as inputs. */
  function NewUlid(ms: int, random: nat): (id: string)
    ensures |id| == 26
  {
    Encoded(ms, TIME_CHARS) + Encoded(random, RAND_CHARS)
  }

  lemma FieldRanges()
    ensures Pow32(TIME_CHARS) == 0x4_0000_0000_0000 && Pow32(RAND_CHARS) == 0x1_0000_0000_0000_0000_0000
  {
    assert Pow32(2) == 32 * Pow32(1) == 1024;
    assert Pow32(4) == 32 * Pow32(3) == 0x10_0000;
    assert Pow32(6) == 32 * Pow32(5) == 0x4000_0000;
    assert Pow32(8) == 32 * Pow32(7) == 0x100_0000_0000;
    assert Pow32(10) == 32 * Pow32(9);
    assert Pow32(12) == 32 * Pow32(11) == 0x1000_0000_0000_0000;
    assert Pow32(14) == 32 * Pow32(13) == 0x40_0000_0000_0000_0000;
    assert Pow32(16) == 32 * Pow32(15);
  }

  /** The rank of an id on the one axis that messages, retractions and cursors share. */
  function Rank(ms: int, random: nat): (r: int) { ms * 0x1_0000_0000_0000_0000_0000 + random }

  /** A 50-bit millisecond count and an 80-bit tail: ids are equal or ordered exactly as their ranks, so a later
      millisecond always sorts later and the tail decides only within one millisecond. */
  lemma UlidOrder(ms1: nat, r1: nat, ms2: nat, r2: nat)
    requires ms1 < 0x4_0000_0000_0000 && ms2 < 0x4_0000_0000_0000
    requires r1 < 0x1_0000_0000_0000_0000_0000 && r2 < 0x1_0000_0000_0000_0000_0000
    ensures LexLess(NewUlid(ms1, r1), NewUlid(ms2, r2)) <==> Rank(ms1, r1) < Rank(ms2, r2)
    ensures NewUlid(ms1, r1) == NewUlid(ms2, r2) <==> ms1 == ms2 && r1 == r2
    ensures ms1 < ms2 ==> LexLess(NewUlid(ms1, r1), NewUlid(ms2, r2))
  {
    FieldRanges();
    EncodeFits(ms1, ms2, TIME_CHARS);
    EncodeFits(r1, r2, RAND_CHARS);
    PairOrder(Encoded(ms1, TIME_CHARS), Encoded(ms2, TIME_CHARS), Encoded(r1, RAND_CHARS), Encoded(r2, RAND_CHARS));
  }

  lemma PairOrder(a: string, b: string, x: string, y: string)
    requires |a| == |b|
    ensures LexLess(a + x, b + y) <==> LexLess(a, b) || (a == b && LexLess(x, y))
    ensures a + x == b + y <==> a == b && x == y
  {
    LexAppend(a, b, x, y);
    assert (a + x)[..|a|] == a && (b + y)[..|b|] == b && (a + x)[|a|..] == x && (b + y)[|b|..] == y;
  }

  /** Outside the range order is lost: the first millisecond that needs an eleventh character wraps to the
      smallest id of all. */
  lemma UlidWraps()
    ensures NewUlid(0x4_0000_0000_0000, 0) == NewUlid(0, 0)
  {
    FieldRanges();
    EncodeOrder(0x4_0000_0000_0000, 0, TIME_CHARS);
  }
}
