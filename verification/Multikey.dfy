/** Public keys as text (`signing.py`): base58btc and the ed25519 Multikey wrapper, both exact inverses. */
module Multikey {
  import opened Store
  import opened Positional
  import opened Bytes

  // ---- numerals in any base

  predicate InBase(ds: seq<nat>, g: nat) { forall i :: 0 <= i < |ds| ==> ds[i] < g }

  /** The number a digit list spells, most significant digit first. */
  function Value(ds: seq<nat>, g: nat): (n: nat) {
    if ds == [] then 0 else Value(ds[..|ds| - 1], g) * g + ds[|ds| - 1]
  }

  /** The digits of `n` with no leading zero. */
  function Minimal(n: nat, g: nat): (ds: seq<nat>)
    requires g >= 2
    ensures InBase(ds, g)
    ensures n == 0 <==> ds == []
    ensures ds != [] ==> ds[0] != 0
  {
    if n == 0 then [] else
      Shrinks(n, g);
      Minimal(n / g, g) + [n % g]
  }

  lemma Shrinks(n: nat, g: nat)
    requires g >= 2 && n > 0
    ensures 0 <= n / g < n && n == (n / g) * g + n % g && (n / g == 0 ==> n % g != 0)
  {
    var q := n / g;
    assert n == q * g + n % g;
    assert q * g >= 2 * q;
  }

  lemma {:induction false} ValueOfMinimal(n: nat, g: nat)
    requires g >= 2
    ensures Value(Minimal(n, g), g) == n
  {
    if n > 0 {
      Shrinks(n, g);
      ValueOfMinimal(n / g, g);
      var ds := Minimal(n, g);
      assert ds[..|ds| - 1] == Minimal(n / g, g);
    }
  }

  lemma MinimalStep(v: nat, d: nat, g: nat)
    requires g >= 2 && d < g && v + d > 0
    ensures v * g + d > 0 && Minimal(v * g + d, g) == Minimal(v, g) + [d]
  {
    assert v * g + d > 0 by {
      assert v > 0 ==> v * g >= v;
    }
    DivModUnique(v * g + d, v, g, d);
  }

  lemma {:induction false} MinimalOfValue(ds: seq<nat>, g: nat)
    requires g >= 2 && InBase(ds, g) && (ds == [] || ds[0] != 0)
    ensures Minimal(Value(ds, g), g) == ds
  {
    if ds != [] {
      var k := |ds| - 1;
      var head := ds[..k];
      MinimalOfValue(head, g);
      assert head != [] ==> Value(head, g) > 0;
      assert Value(ds, g) == Value(head, g) * g + ds[k];
      hide Minimal, Value;
      MinimalStep(Value(head, g), ds[k], g);
      assert ds == head + [ds[k]];
    }
  }

  function Zeros(k: nat): (z: seq<nat>)
    ensures |z| == k
  {
    seq(k, _ => 0)
  }

  function Strip(ds: seq<nat>): (r: seq<nat>)
    ensures |r| <= |ds| && ds == Zeros(|ds| - |r|) + r
    ensures r == [] || r[0] != 0
  {
    if ds != [] && ds[0] == 0 then
      var r := Strip(ds[1..]);
      assert ds == [ds[0]] + ds[1..];
      assert ds == Zeros(|ds| - |r|) + r;
      r
    else ds
  }

  function Lead(ds: seq<nat>): (k: nat) { |ds| - |Strip(ds)| }

  lemma {:induction false} StripUnique(k: nat, r: seq<nat>)
    requires r == [] || r[0] != 0
    ensures Strip(Zeros(k) + r) == r && Lead(Zeros(k) + r) == k
  {
    var ds := Zeros(k) + r;
    if k == 0 {
      assert ds == r;
    } else {
      assert ds[1..] == Zeros(k - 1) + r;
      StripUnique(k - 1, r);
    }
  }

  lemma {:induction false} ZerosAddNothing(k: nat, r: seq<nat>, g: nat)
    ensures Value(Zeros(k) + r, g) == Value(r, g)
  {
    var ds := Zeros(k) + r;
    if r != [] {
      assert ds[..|ds| - 1] == Zeros(k) + r[..|r| - 1];
      ZerosAddNothing(k, r[..|r| - 1], g);
    } else if k > 0 {
      assert ds[..|ds| - 1] == Zeros(k - 1) + r;
      ZerosAddNothing(k - 1, r, g);
    } else {
      assert ds == r;
    }
  }

  /** Base conversion that keeps leading zeros one for one. */
  function Convert(ds: seq<nat>, g: nat, h: nat): (r: seq<nat>)
    requires g >= 2 && h >= 2
    ensures InBase(r, h)
  {
    Zeros(Lead(ds)) + Minimal(Value(ds, g), h)
  }

  /** Converting there and back is the identity on every digit list. */
  lemma ConvertBack(ds: seq<nat>, g: nat, h: nat)
    requires g >= 2 && h >= 2 && InBase(ds, g)
    ensures Convert(Convert(ds, g, h), h, g) == ds
  {
    hide Value, Minimal, Strip, Zeros;
    var k, n := Lead(ds), Value(ds, g);
    StripUnique(k, Minimal(n, h));
    ZerosAddNothing(k, Minimal(n, h), h);
    ValueOfMinimal(n, h);
    ZerosAddNothing(k, Strip(ds), g);
    assert Strip(ds) == ds[k..];
    MinimalOfValue(Strip(ds), g);
  }

  // ---- base58btc

  const ALPHABET := "123456789" + "ABCDEFGH" + "JKLMN" + "PQRSTUVWXYZ" + "abcdefghijk" + "mnopqrstuvwxyz"

  /** The alphabet by ranges; `AlphabetSpelled` ties it to the literal. */
  function Char58(i: nat): (c: CodePoint)
    requires i < 58
  {
    if i < 9 then 49 + i else if i < 17 then 56 + i else if i < 22 then 57 + i
    else if i < 33 then 58 + i else if i < 44 then 64 + i else 65 + i
  }

  lemma AlphabetSpelled(i: nat)
    requires i < 58
    ensures |ALPHABET| == 58 && ALPHABET[i] as int == Char58(i)
  {
    if i < 9 {
      assert ALPHABET[i] == "123456789"[i];
    } else if i < 17 {
      assert ALPHABET[i] == "ABCDEFGH"[i - 9];
    } else if i < 22 {
      assert ALPHABET[i] == "JKLMN"[i - 17];
    } else if i < 33 {
      assert ALPHABET[i] == "PQRSTUVWXYZ"[i - 22];
    } else if i < 44 {
      assert ALPHABET[i] == "abcdefghijk"[i - 33];
    } else {
      assert ALPHABET[i] == "mnopqrstuvwxyz"[i - 44];
    }
  }

  /** `_B58_INDEX.get(ch)`. */
  function Index58(c: CodePoint): (i: Option<nat>)
    ensures i.Some? ==> i.value < 58 && Char58(i.value) == c
    ensures i.None? ==> forall j :: 0 <= j < 58 ==> Char58(j) != c
  {
    if 49 <= c < 58 then Some(c - 49) else if 65 <= c < 73 then Some(c - 56) else if 74 <= c < 79 then Some(c - 57)
    else if 80 <= c < 91 then Some(c - 58) else if 97 <= c < 108 then Some(c - 64) else if 109 <= c < 123 then Some(c - 65)
    else None
  }

  function Spell(ds: seq<nat>): (s: Str)
    requires InBase(ds, 58)
  {
    seq(|ds|, i requires 0 <= i < |ds| => Char58(ds[i]))
  }

  predicate InAlphabet(s: Str) { forall i :: 0 <= i < |s| ==> Index58(s[i]).Some? }

  function Read(s: Str): (ds: seq<nat>)
    requires InAlphabet(s)
    ensures InBase(ds, 58)
  {
    seq(|s|, i requires 0 <= i < |s| => Index58(s[i]).value)
  }

  function B58Encode(b: seq<Byte>): (s: Str) { Spell(Convert(b, 256, 58)) }

  function B58Decode(s: Str): (r: Option<seq<Byte>>) {
    if InAlphabet(s) then Some(AsBytes(Convert(Read(s), 58, 256))) else None
  }

  function AsBytes(ds: seq<nat>): (b: seq<Byte>)
    requires InBase(ds, 256)
    ensures ds == b
  {
    seq(|ds|, i requires 0 <= i < |ds| => ds[i])
  }

  /** BASE58 ROUND TRIP, on all byte strings. */
  lemma DecodeOfEncode(b: seq<Byte>)
    ensures B58Decode(B58Encode(b)) == Some(b)
  {
    var ds := Convert(b, 256, 58);
    var s := Spell(ds);
    assert forall i :: 0 <= i < |s| ==> Index58(s[i]) == Some(ds[i]);
    assert Read(s) == ds;
    ConvertBack(b, 256, 58);
  }

  /** And on all texts over the alphabet: the two sets are in bijection. */
  lemma EncodeOfDecode(s: Str)
    requires B58Decode(s).Some?
    ensures B58Encode(B58Decode(s).value) == s
  {
    ConvertBack(Read(s), 58, 256);
    assert Spell(Read(s)) == s;
  }

  lemma MinimalLast(n: nat)
    requires n > 0
    ensures var ds := Minimal(n, 58); |ds| > 0 && ds[..|ds| - 1] == Minimal(n / 58, 58) && ds[|ds| - 1] == n % 58
  {
  }

  /** The body of `_b58encode`: divide out base-58 digits, then reverse. */
  method WriteNumber(n: nat) returns (s: Str)
    ensures s == Spell(Minimal(n, 58))
  {
    hide Minimal;
    var num := n;
    ghost var ds := Minimal(n, 58);
    var out: Str := [];
    while num > 0
      invariant |out| <= |ds| && Minimal(num, 58) == ds[..|ds| - |out|]
      invariant forall i :: 0 <= i < |out| ==> out[i] == Char58(ds[|ds| - 1 - i])
    {
      MinimalLast(num);
      out := out + [Char58(num % 58)];
      num := num / 58;
    }
    s := seq(|out|, i requires 0 <= i < |out| => out[|out| - 1 - i]);
  }

  /** `_b58encode`. */
  method EncodeBase58(b: seq<Byte>) returns (s: Str)
    ensures s == B58Encode(b)
    ensures B58Decode(s) == Some(b)
  {
    hide Value, Minimal, Strip, B58Decode;
    var pad := 0;
    while pad < |b| && b[pad] == 0
      invariant pad <= |b| && forall i :: 0 <= i < pad ==> b[i] == 0
    {
      pad := pad + 1;
    }
    assert b == Zeros(pad) + b[pad..];
    StripUnique(pad, b[pad..]);
    var body := WriteNumber(Value(b, 256));
    s := seq(pad, _ => 49) + body;
    assert s == Spell(Zeros(pad) + Minimal(Value(b, 256), 58));
    DecodeOfEncode(b);
  }

  /** `_b58decode`'s accumulator, refusing the first character outside the alphabet. */
  method ReadNumber(s: Str) returns (r: Option<nat>)
    ensures r.Some? <==> InAlphabet(s)
    ensures r.Some? ==> r.value == Value(Read(s), 58)
  {
    var num: nat := 0;
    for i := 0 to |s|
      invariant InAlphabet(s[..i]) && num == Value(Read(s[..i]), 58)
    {
      hide Index58;
      var d := Index58(s[i]);
      if d.None? { return None; }
      assert Read(s[..i + 1])[..i] == Read(s[..i]);
      num := num * 58 + d.value;
    }
    assert s[..|s|] == s;
    r := Some(num);
  }

  /** `_b58decode`. */
  method DecodeBase58(s: Str) returns (r: Option<seq<Byte>>)
    ensures r == B58Decode(s)
    ensures r.Some? ==> B58Encode(r.value) == s
  {
    hide Value, Minimal, Strip, B58Encode;
    var num := ReadNumber(s);
    if num.None? { return None; }
    var pad := 0;
    while pad < |s| && s[pad] == 49
      invariant pad <= |s| && forall i :: 0 <= i < pad ==> s[i] == 49
    {
      pad := pad + 1;
    }
    ghost var ds := Read(s);
    assert ds == Zeros(pad) + ds[pad..];
    StripUnique(pad, ds[pad..]);
    r := Some(AsBytes(Zeros(pad) + Minimal(num.value, 256)));
    EncodeOfDecode(s);
  }

  // ---- Multikey

  const MULTICODEC: seq<Byte> := [0xed, 0x01]
  const PUBKEY_RAW_LEN := 32
  const MAX_PUBKEY_STR := 128
  const LETTER_Z: CodePoint := 122

  /** `encode_multikey`, or the OriginError of a wrong length. */
  function EncodeKey(raw: seq<Byte>): (r: Option<Str>) {
    if |raw| != PUBKEY_RAW_LEN then None else Some([LETTER_Z] + B58Encode(MULTICODEC + raw))
  }

  /** `decode_multikey`, or its OriginError. */
  function DecodeKey(s: Str): (r: Option<seq<Byte>>) {
    if s == [] || s[0] != LETTER_Z || |s| > MAX_PUBKEY_STR then None else
      var decoded := B58Decode(s[1..]);
      if decoded.None? || |decoded.value| < 2 || decoded.value[..2] != MULTICODEC
         || |decoded.value[2..]| != PUBKEY_RAW_LEN then None
      else Some(decoded.value[2..])
  }

  lemma {:induction false} MinimalLength(n: nat, w: nat)
    requires n < Pow256(w)
    ensures |Minimal(n, 58)| <= 2 * w
    decreases w
  {
    if w > 0 && n > 0 {
      var m := n / 58 / 58;
      MinimalLength(m, w - 1);
      assert n / 58 > 0 ==> |Minimal(n / 58, 58)| == |Minimal(m, 58)| + 1;
    }
  }

  lemma {:induction false} ValueIsFromBytes(b: seq<Byte>)
    ensures Value(b, 256) == FromBytes(b)
  {
    if b != [] {
      ValueIsFromBytes(b[..|b| - 1]);
    }
  }

  lemma EncodedLength(b: seq<Byte>)
    ensures |B58Encode(b)| <= 2 * |b|
  {
    var k, rest: seq<Byte> := Lead(b), b[Lead(b)..];
    assert rest == Strip(b);
    ZerosAddNothing(k, rest, 256);
    ValueIsFromBytes(rest);
    FromBytesRoundTrip(rest);
    MinimalLength(FromBytes(rest), |rest|);
  }

  /** MULTIKEY ROUND TRIP: every 32-byte key survives the text form. */
  lemma KeyRoundTrip(raw: seq<Byte>)
    requires |raw| == PUBKEY_RAW_LEN
    ensures EncodeKey(raw).Some? && DecodeKey(EncodeKey(raw).value) == Some(raw)
  {
    var b := MULTICODEC + raw;
    DecodeOfEncode(b);
    EncodedLength(b);
    var s := EncodeKey(raw).value;
    assert s[1..] == B58Encode(b) && b[..2] == MULTICODEC && b[2..] == raw;
  }

  /** A key has one accepted spelling: allowlisting the canonical text is allowlisting the key. */
  lemma OneSpelling(s: Str)
    requires DecodeKey(s).Some?
    ensures EncodeKey(DecodeKey(s).value) == Some(s)
  {
    hide B58Encode, B58Decode;
    var b := B58Decode(s[1..]).value;
    EncodeOfDecode(s[1..]);
    assert b == MULTICODEC + b[2..];
    assert s == [LETTER_Z] + s[1..];
  }

  /** What an accepted text guarantees its readers. */
  lemma DecodedKey(s: Str)
    requires DecodeKey(s).Some?
    ensures |DecodeKey(s).value| == PUBKEY_RAW_LEN && |s| <= MAX_PUBKEY_STR
    ensures EncodeKey(DecodeKey(s).value) == Some(s)
  {
    OneSpelling(s);
    hide B58Encode, B58Decode;
  }

  /** THE TEXT FORM, EXACTLY. A text decodes to `raw` if and only if `raw` has 32 bytes and the text is the letter z and
      the base58 spelling of the bytes 0xed, 0x01 and `raw`. */
  lemma KeyTextExact(s: Str, raw: seq<Byte>)
    ensures DecodeKey(s) == Some(raw) <==> |raw| == 32 && s == Lit("z") + B58Encode([0xed, 0x01] + raw)
    ensures EncodeKey(raw) == Some(s) <==> |raw| == 32 && s == Lit("z") + B58Encode([0xed, 0x01] + raw)
  {
    assert Lit("z") == [LETTER_Z];
    if DecodeKey(s) == Some(raw) {
      OneSpelling(s);
    }
    if |raw| == 32 {
      KeyRoundTrip(raw);
    }
    hide B58Encode, B58Decode, DecodeKey;
  }
}
