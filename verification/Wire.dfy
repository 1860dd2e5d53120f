/** Signed envelopes as they arrive: a flat JSON object, and the primitives that check it. */
module Wire {
  import opened Store
  import opened Bytes

  /** A field value; `true` is not the number 1, as the code insists, and arrays and objects are never accepted. */
  datatype Value = Null | Bool(b: bool) | Int(n: int) | Float(r: real) | Text(s: Str) | Nested

  /** The member names of the two envelopes, spelled as in the source, and every other name. */
  datatype Name =
    | VKey | AlgKey | SignedAtKey                                            // "v", "alg", "signed_at_ms"
    | IdKey | DisplayNameKey | BaseUrlKey | ModeKey | KeyVersionKey | IslandPubkeyKey | SignatureKey
    | RobotIdKey | CommandKey | SeqKey | SenderPubkeyKey | SigKey
    | OtherKey(name: string)

  datatype Raw = NotObject | Object(fields: map<Name, Value>)

  /** A non-empty string within its cap. */
  predicate Bounded(v: Value, cap: nat) { v.Text? && |v.s| <= cap && v.s != [] }

  predicate IntIn(v: Value, lo: int, hi: int) { v.Int? && lo <= v.n <= hi }

  /** Ed25519 (RFC 8032) and unpadded base64url, kept abstract. */
  datatype Crypto = Crypto(
    publicKey: seq<Byte> -> seq<Byte>,                        // from the 32-byte seed
    sign: (seq<Byte>, seq<Byte>) -> seq<Byte>,                // seed, message
    verifies: (seq<Byte>, seq<Byte>, seq<Byte>) -> bool,      // raw key, signature, message
    sigText: seq<Byte> -> Str,
    sigRaw: Str -> Option<seq<Byte>>)                         // `b64url_raw` at 64 bytes

  const SIG_LEN := 64

  /** What the primitives promise: honest signatures verify, and the strict decoder accepts exactly the canonical
      text of a 64-byte signature. */
  ghost predicate Lawful(c: Crypto) {
    && (forall seed, m :: c.verifies(c.publicKey(seed), c.sign(seed, m), m))
    && (forall seed :: |c.publicKey(seed)| == 32)
    && (forall seed, m :: |c.sign(seed, m)| == SIG_LEN)
    && (forall b :: |b| == SIG_LEN ==> c.sigRaw(c.sigText(b)) == Some(b) && |c.sigText(b)| == 86)
    && (forall t :: c.sigRaw(t).Some? ==> |c.sigRaw(t).value| == SIG_LEN && c.sigText(c.sigRaw(t).value) == t)
  }

  /** A stand-in for base64url: 64 bytes and 22 zeros. */
  function PadText(b: seq<Byte>): (t: Str) { if |b| == SIG_LEN then b + seq(22, _ => 0) else [] }

  function UnpadText(t: Str): (b: Option<seq<Byte>>) {
    if |t| == 86 && t[SIG_LEN..] == seq(22, _ => 0) && forall i :: 0 <= i < SIG_LEN ==> t[i] < 256
    then Some(seq(SIG_LEN, i requires 0 <= i < SIG_LEN && t[i] < 256 => t[i])) else None
  }

  lemma UnpadOfPad(b: seq<Byte>)
    requires |b| == SIG_LEN
    ensures UnpadText(PadText(b)) == Some(b)
  {
    var t := PadText(b);
    assert t[SIG_LEN..] == seq(22, _ => 0) && forall i :: 0 <= i < SIG_LEN ==> t[i] == b[i];
    assert UnpadText(t).value == b;
  }

  lemma PadOfUnpad(t: Str)
    requires UnpadText(t).Some?
    ensures |UnpadText(t).value| == SIG_LEN && PadText(UnpadText(t).value) == t
  {
    assert t == t[..SIG_LEN] + t[SIG_LEN..];
    assert UnpadText(t).value == t[..SIG_LEN];
  }

  /** The laws are consistent: some scheme has them. */
  lemma LawfulSchemeExists()
    ensures exists c :: Lawful(c)
  {
    var c := Crypto((_: seq<Byte>) => seq(32, _ => 0), (_: seq<Byte>, _: seq<Byte>) => seq(64, _ => 0),
                    (_: seq<Byte>, _: seq<Byte>, _: seq<Byte>) => true, PadText, UnpadText);
    forall b: seq<Byte> | |b| == SIG_LEN ensures c.sigRaw(c.sigText(b)) == Some(b) {
      UnpadOfPad(b);
    }
    forall t | c.sigRaw(t).Some? ensures |c.sigRaw(t).value| == SIG_LEN && c.sigText(c.sigRaw(t).value) == t {
      PadOfUnpad(t);
    }
    assert Lawful(c);
  }
}
