/** Byte strings: UTF-8 (RFC 3629), big-endian integers, and length-prefixed framing. */
module Bytes {

  type Byte = n: nat | n < 256
  type CodePoint = n: nat | n < 0x110000

  /** A Python `str`: unlike Dafny's characters its code points may be lone surrogates. */
  type Str = seq<CodePoint>

  predicate Surrogate(c: CodePoint) { 0xD800 <= c < 0xE000 }

  /** `str.encode()` succeeds. */
  predicate Encodable(s: Str) { forall i :: 0 <= i < |s| ==> !Surrogate(s[i]) }

  /** A literal of the source. */
  function Lit(s: string): (r: Str)
    ensures |r| == |s|
    ensures forall i :: 0 <= i < |s| ==> r[i] == s[i] as int
    ensures Encodable(r)
  {
    seq(|s|, i requires 0 <= i < |s| => s[i] as int)
  }

  // ---- JSON string escapes

  predicate High(c: CodePoint) { 0xD800 <= c < 0xDC00 }

  predicate Low(c: CodePoint) { 0xDC00 <= c < 0xE000 }

  /** No high surrogate directly before a low one. */
  predicate NoPair(s: Str) { forall i :: 0 <= i < |s| - 1 ==> !(High(s[i]) && Low(s[i + 1])) }

  /** What a string comes back as through `json.dump` and `json.load`: code points are escaped one by one, and the
      reader joins an escaped surrogate pair into one code point. */
  function Joined(s: Str): (r: Str)
    ensures |r| <= |s| && (r == [] <==> s == [])
  {
    if s == [] then []
    else if |s| > 1 && High(s[0]) && Low(s[1]) then
      [0x10000 + (s[0] - 0xD800) * 0x400 + (s[1] - 0xDC00)] + Joined(s[2..])
    else [s[0]] + Joined(s[1..])
  }

  /** A pair is read back as the one code point that UTF-16 (RFC 2781) spells with it, and anything else as itself. */
  lemma JoinedPair(h: CodePoint, l: CodePoint)
    ensures if High(h) && Low(l) then
              |Joined([h, l])| == 1 && var c := Joined([h, l])[0]; c >= 0x10000 && 0xD800 + (c - 0x10000) / 0x400 == h && 0xDC00 + (c - 0x10000) % 0x400 == l
            else Joined([h, l]) == [h, l]
  {
    assert [h, l][1..] == [l] && [l][1..] == [] && [h, l][2..] == [];
  }

  lemma {:induction false} JoinedHasNoPair(s: Str)
    ensures NoPair(Joined(s))
    ensures s != [] && Low(Joined(s)[0]) ==> Joined(s)[0] == s[0]
  {
    if s == [] {
    } else if |s| > 1 && High(s[0]) && Low(s[1]) {
      JoinedHasNoPair(s[2..]);
      var t := Joined(s[2..]);
      assert forall i :: 0 < i < |Joined(s)| ==> Joined(s)[i] == t[i - 1];
    } else {
      JoinedHasNoPair(s[1..]);
      var t := Joined(s[1..]);
      assert forall i :: 0 < i < |Joined(s)| ==> Joined(s)[i] == t[i - 1];
    }
  }

  /** Exactly the strings without a pair come back unchanged, and those with one come back shorter. */
  lemma {:induction false} JoinedIsSameIff(s: Str)
    ensures Joined(s) == s <==> NoPair(s)
    ensures !NoPair(s) ==> |Joined(s)| < |s|
  {
    if s == [] {
    } else if |s| > 1 && High(s[0]) && Low(s[1]) {
      assert !NoPair(s);
    } else {
      JoinedIsSameIff(s[1..]);
      assert s == [s[0]] + s[1..];
      assert NoPair(s[1..]) <==> NoPair(s) by {
        assert forall i :: 0 <= i < |s[1..]| ==> s[1..][i] == s[i + 1];
        if NoPair(s[1..]) {
          forall i | 0 <= i < |s| - 1 ensures !(High(s[i]) && Low(s[i + 1])) {
            assert i > 0 ==> s[1..][i - 1] == s[i] && s[1..][i] == s[i + 1];
          }
        }
      }
    }
  }

  lemma EncodableHasNoPair(s: Str)
    requires Encodable(s)
    ensures NoPair(s)
  {
    assert forall i :: 0 <= i < |s| ==> !Surrogate(s[i]);
  }

  // ---- UTF-8

  function Utf8Char(c: CodePoint): (b: seq<Byte>)
    ensures 1 <= |b| <= 4
  {
    if c < 0x80 then [c]
    else if c < 0x800 then [0xC0 + c / 64, 0x80 + c % 64]
    else if c < 0x10000 then [0xE0 + c / 4096, 0x80 + c / 64 % 64, 0x80 + c % 64]
    else [0xF0 + c / 262144, 0x80 + c / 4096 % 64, 0x80 + c / 64 % 64, 0x80 + c % 64]
  }

  function Utf8(s: Str): (b: seq<Byte>)
    ensures |s| <= |b| <= 4 * |s|
  {
    if s == [] then [] else Utf8Char(s[0]) + Utf8(s[1..])
  }

  /** RFC 3629, section 3: the lead byte tells the length, every further byte is 10xxxxxx, and the payload bits in order
      are the code point, in the shortest form that holds it. */
  lemma Utf8Bits(c: CodePoint)
    ensures var b: seq<nat> := Utf8Char(c);
            && (forall i :: 0 < i < |b| ==> b[i] / 64 == 2)
            && (if c < 0x80 then |b| == 1 && b[0] == c
                else if c < 0x800 then |b| == 2 && b[0] / 32 == 6 && c == b[0] % 32 * 64 + b[1] % 64
                else if c < 0x10000 then |b| == 3 && b[0] / 16 == 14 && c == (b[0] % 16 * 64 + b[1] % 64) * 64 + b[2] % 64
                else |b| == 4 && b[0] / 8 == 30 && c == ((b[0] % 8 * 64 + b[1] % 64) * 64 + b[2] % 64) * 64 + b[3] % 64)
  {
    SixBitGroups(c);
  }

  /** The first byte fixes the length. */
  lemma Utf8CharLength(c: CodePoint, d: CodePoint)
    requires Utf8Char(c)[0] == Utf8Char(d)[0]
    ensures |Utf8Char(c)| == |Utf8Char(d)|
  {
  }

  lemma SixBits(c: nat, d: nat)
    requires c / 64 == d / 64 && c % 64 == d % 64
    ensures c == d
  {
  }

  lemma SixBitGroups(c: nat)
    ensures c / 4096 == c / 64 / 64 && c / 262144 == c / 64 / 64 / 64
  {
  }

  lemma Utf8CharInjective(c: CodePoint, d: CodePoint)
    requires Utf8Char(c) == Utf8Char(d)
    ensures c == d
  {
    var n := |Utf8Char(c)|;
    SixBitGroups(c);
    SixBitGroups(d);
    assert n >= 1 ==> Utf8Char(c)[0] == Utf8Char(d)[0];
    assert n >= 2 ==> Utf8Char(c)[1] == Utf8Char(d)[1];
    assert n >= 3 ==> Utf8Char(c)[2] == Utf8Char(d)[2];
    assert n >= 4 ==> Utf8Char(c)[3] == Utf8Char(d)[3];
    if n >= 4 {
      SixBits(c / 64 / 64, d / 64 / 64);
    }
    if n >= 3 {
      SixBits(c / 64, d / 64);
    }
    if n >= 2 {
      SixBits(c, d);
    }
  }

  /** Equal-length heads of equal strings are equal, and so are the tails. */
  lemma Cut(a: seq<Byte>, x: seq<Byte>, b: seq<Byte>, y: seq<Byte>)
    requires |a| == |b| && a + x == b + y
    ensures a == b && x == y
  {
    assert a == (a + x)[..|a|] && b == (b + y)[..|b|];
    assert x == (a + x)[|a|..] && y == (b + y)[|b|..];
  }

  lemma {:induction false} Utf8Injective(s: Str, t: Str)
    requires Utf8(s) == Utf8(t)
    ensures s == t
  {
    if s != [] && t != [] {
      var c, d := Utf8Char(s[0]), Utf8Char(t[0]);
      assert Utf8(s)[0] == c[0] && Utf8(t)[0] == d[0];
      Utf8CharLength(s[0], t[0]);
      Cut(c, Utf8(s[1..]), d, Utf8(t[1..]));
      Utf8CharInjective(s[0], t[0]);
      Utf8Injective(s[1..], t[1..]);
      assert s == [s[0]] + s[1..] && t == [t[0]] + t[1..];
    }
  }

  // ---- big-endian integers (`struct.pack`)

  function Pow256(w: nat): (p: nat)
    ensures p >= 1
  {
    if w == 0 then 1 else 256 * Pow256(w - 1)
  }

  function BigEndian(n: nat, w: nat): (b: seq<Byte>)
    ensures |b| == w
    decreases w
  {
    if w == 0 then [] else BigEndian(n / 256, w - 1) + [n % 256]
  }

  /** `int.from_bytes(b, "big")`. */
  function FromBytes(b: seq<Byte>): (n: nat) {
    if b == [] then 0 else FromBytes(b[..|b| - 1]) * 256 + b[|b| - 1]
  }

  lemma {:induction false} BigEndianRoundTrip(n: nat, w: nat)
    requires n < Pow256(w)
    ensures FromBytes(BigEndian(n, w)) == n
    decreases w
  {
    if w > 0 {
      BigEndianRoundTrip(n / 256, w - 1);
      var b := BigEndian(n, w);
      assert b[..w - 1] == BigEndian(n / 256, w - 1);
    }
  }

  lemma {:induction false} FromBytesRoundTrip(b: seq<Byte>)
    ensures FromBytes(b) < Pow256(|b|)
    ensures BigEndian(FromBytes(b), |b|) == b
  {
    if b != [] {
      var w := |b| - 1;
      FromBytesRoundTrip(b[..w]);
      assert b == b[..w] + [b[w]];
      assert FromBytes(b) / 256 == FromBytes(b[..w]) && FromBytes(b) % 256 == b[w];
    }
  }

  // ---- framing

  const U32_SIZE := 0x1_0000_0000
  const U64_SIZE := 0x1_0000_0000_0000_0000

  lemma Sizes()
    ensures Pow256(4) == U32_SIZE && Pow256(8) == U64_SIZE
  {
    assert Pow256(2) == 256 * 256;
    assert Pow256(4) == 256 * 256 * Pow256(2);
    assert Pow256(6) == 256 * 256 * Pow256(4);
    assert Pow256(8) == 256 * 256 * Pow256(6);
  }

  /** One field of a signed message. */
  datatype Part =
    | Blob(b: seq<Byte>)      // preceded by its length as a u32
    | U32(n: int)
    | U64(n: int)

  /** `struct.pack` does not raise. */
  predicate Fits(p: Part) {
    match p
    case Blob(b) => |b| < U32_SIZE
    case U32(n) => 0 <= n < U32_SIZE
    case U64(n) => 0 <= n < U64_SIZE
  }

  function Pack(p: Part): (b: seq<Byte>)
    requires Fits(p)
  {
    match p
    case Blob(b) => BigEndian(|b|, 4) + b
    case U32(n) => BigEndian(n, 4)
    case U64(n) => BigEndian(n, 8)
  }

  function Frame(ps: seq<Part>): (b: seq<Byte>)
    requires forall i :: 0 <= i < |ps| ==> Fits(ps[i])
  {
    if ps == [] then [] else Pack(ps[0]) + Frame(ps[1..])
  }

  predicate SameKind(p: Part, q: Part) { (p.Blob? <==> q.Blob?) && (p.U32? <==> q.U32?) }

  lemma NumberPrefixFree(n: nat, x: seq<Byte>, m: nat, y: seq<Byte>, w: nat)
    requires n < Pow256(w) && m < Pow256(w) && BigEndian(n, w) + x == BigEndian(m, w) + y
    ensures n == m && x == y
  {
    hide Pow256, BigEndian, FromBytes;
    Cut(BigEndian(n, w), x, BigEndian(m, w), y);
    BigEndianRoundTrip(n, w);
    BigEndianRoundTrip(m, w);
  }

  /** A part can be read off the front of a byte string in at most one way. */
  lemma PackPrefixFree(p: Part, x: seq<Byte>, q: Part, y: seq<Byte>)
    requires Fits(p) && Fits(q) && SameKind(p, q) && Pack(p) + x == Pack(q) + y
    ensures p == q && x == y
  {
    Sizes();
    hide Pow256, BigEndian;
    match p {
      case Blob(b) =>
        var n, m := BigEndian(|b|, 4), BigEndian(|q.b|, 4);
        assert Pack(p) + x == n + (b + x) && Pack(q) + y == m + (q.b + y);
        NumberPrefixFree(|b|, b + x, |q.b|, q.b + y, 4);
        Cut(b, x, q.b, y);
      case U32(n) => NumberPrefixFree(n, x, q.n, y, 4);
      case U64(n) => NumberPrefixFree(n, x, q.n, y, 8);
    }
  }

  /** Framing loses nothing on part lists of one layout. */
  lemma {:induction false} FrameInjective(ps: seq<Part>, qs: seq<Part>)
    requires |ps| == |qs| && forall i :: 0 <= i < |ps| ==> Fits(ps[i]) && Fits(qs[i]) && SameKind(ps[i], qs[i])
    requires Frame(ps) == Frame(qs)
    ensures ps == qs
  {
    hide Pack;
    if ps != [] {
      PackPrefixFree(ps[0], Frame(ps[1..]), qs[0], Frame(qs[1..]));
      FrameInjective(ps[1..], qs[1..]);
      assert ps == [ps[0]] + ps[1..] && qs == [qs[0]] + qs[1..];
    }
  }

  /** Frames that open with different tags differ, whatever layouts follow. */
  lemma TagsSeparate(ps: seq<Part>, qs: seq<Part>)
    requires forall i :: 0 <= i < |ps| ==> Fits(ps[i])
    requires forall i :: 0 <= i < |qs| ==> Fits(qs[i])
    requires ps != [] && qs != [] && ps[0].Blob? && qs[0].Blob? && ps[0] != qs[0]
    ensures Frame(ps) != Frame(qs)
  {
    hide Pack;
    if Frame(ps) == Frame(qs) {
      PackPrefixFree(ps[0], Frame(ps[1..]), qs[0], Frame(qs[1..]));
    }
  }
}
