/** The island's signed self-description (`island_identity.py`). */
module Manifest {
  import opened Store
  import opened Bytes
  import opened Multikey
  import opened SignedBytes
  import opened Wire

  const V := 2
  const MAX_ID := 64
  const MAX_NAME := 64
  const MAX_URL := 255
  const KEY_VERSION_MAX := 0xFFFF_FFFF
  const MAX_SIGNED_AT := 0x4000_0000_0000_0000
  const MAX_AGE := 300_000
  const MAX_SKEW := 60_000
  const SEED_LEN := 32

  const KEYS := {VKey, AlgKey, IdKey, DisplayNameKey, BaseUrlKey, ModeKey, KeyVersionKey, SignedAtKey,
                 IslandPubkeyKey, SignatureKey}

  /** The code raises its own error for every malformation but one: see `EscapesIff`. */
  datatype Error = IslandIdentityError | UnicodeEncodeError

  predicate ValidMode(m: Str) { m == Lit("moderator") || m == Lit("e2ee") }

  /** `_check_identity_tuple`: the tuple, or None for IslandIdentityError. */
  function CheckTuple(id: Value, name: Value, url: Value, mode: Value, version: Value, at: Value): (r: Option<Signed>) {
    if Bounded(id, MAX_ID) && Bounded(name, MAX_NAME) && Bounded(url, MAX_URL) && Bounded(mode, MAX_NAME)
       && ValidMode(mode.s) && IntIn(version, 1, KEY_VERSION_MAX) && IntIn(at, 0, MAX_SIGNED_AT)
    then Some(Island(id.s, name.s, url.s, mode.s, version.n, at.n)) else None
  }

  /** An identity tuple within its bounds. */
  predicate InBounds(x: Signed) {
    && x.Island?
    && 0 < |x.id| <= 64 && 0 < |x.displayName| <= 64 && 0 < |x.baseUrl| <= 255
    && (x.mode == Lit("moderator") || x.mode == Lit("e2ee"))
    && 1 <= x.keyVersion < 0x1_0000_0000 && 0 <= x.at <= 0x4000_0000_0000_0000
  }

  /** The envelope that carries a tuple under a key text and a signature text. */
  function Envelope(x: Signed, key: Str, sig: Str): (m: map<Name, Value>)
    requires x.Island?
  {
    map[VKey := Int(V), AlgKey := Text(Lit("EdDSA")), IdKey := Text(x.id), DisplayNameKey := Text(x.displayName),
        BaseUrlKey := Text(x.baseUrl), ModeKey := Text(x.mode), KeyVersionKey := Int(x.keyVersion),
        SignedAtKey := Int(x.at), IslandPubkeyKey := Text(key), SignatureKey := Text(sig)]
  }

  /** `build_signed_manifest`; `seed` is what the configured text decodes to. */
  function Build(c: Crypto, id: Value, name: Value, url: Value, mode: Value, version: Value, at: Value,
                 seed: Option<seq<Byte>>): (r: Result<map<Name, Value>, Error>)
  {
    var x := CheckTuple(id, name, url, mode, version, at);
    if x.None? || seed.None? || |seed.value| != SEED_LEN then Err(IslandIdentityError) else
      var b := SigningBytes(x.value);
      if b.None? then Err(UnicodeEncodeError) else
        var key := EncodeKey(c.publicKey(seed.value));
        if key.None? then Err(IslandIdentityError)
        else Ok(Envelope(x.value, key.value, c.sigText(c.sign(seed.value, b.value))))
  }

  datatype Checked = Checked(tuple: Signed, key: seq<Byte>, sig: seq<Byte>)

  /** Everything `verify_manifest` decides before it builds the signing bytes. */
  function Check(raw: Raw, c: Crypto): (r: Option<Checked>) {
    if raw.NotObject? || raw.fields.Keys != KEYS then None else
      var m := raw.fields;
      if m[VKey] != Int(V) || m[AlgKey] != Text(Lit("EdDSA")) then None else
        var x := CheckTuple(m[IdKey], m[DisplayNameKey], m[BaseUrlKey], m[ModeKey], m[KeyVersionKey], m[SignedAtKey]);
        if x.None? || !m[IslandPubkeyKey].Text? || !m[SignatureKey].Text? || |m[IslandPubkeyKey].s| > MAX_PUBKEY_STR
        then None else
          var key, sig := DecodeKey(m[IslandPubkeyKey].s), c.sigRaw(m[SignatureKey].s);
          if key.None? || sig.None? then None else Some(Checked(x.value, key.value, sig.value))
  }

  /** `verify_manifest`. */
  function Verify(raw: Raw, c: Crypto): (r: Result<bool, Error>) {
    var m := Check(raw, c);
    if m.None? then Err(IslandIdentityError) else
      var b := SigningBytes(m.value.tuple);
      if b.None? then Err(UnicodeEncodeError) else Ok(c.verifies(m.value.key, m.value.sig, b.value))
  }

  /** `is_fresh`. */
  function IsFresh(at: Value, now: Value, maxAge: Value, skew: Value): (r: Result<bool, Error>) {
    if IntIn(at, 0, MAX_SIGNED_AT) && IntIn(now, 0, MAX_SIGNED_AT) && IntIn(maxAge, 0, MAX_SIGNED_AT) && IntIn(skew, 0, MAX_SIGNED_AT)
    then Ok(-skew.n <= now.n - at.n <= maxAge.n) else Err(IslandIdentityError)
  }

  /** `admit_manifest`. */
  function Admit(raw: Raw, c: Crypto, now: Value, maxAge: Value, skew: Value): (r: Result<Option<Value>, Error>) {
    if (maxAge.Int? && maxAge.n > MAX_AGE) || (skew.Int? && skew.n > MAX_SKEW) then Err(IslandIdentityError) else
      var ok := Verify(raw, c);
      if ok.Err? then Err(ok.error)
      else if !ok.value then Ok(None)
      else
        var recent := IsFresh(raw.fields[SignedAtKey], now, maxAge, skew);
        if recent.Err? then Err(recent.error)
        else Ok(if recent.value then Some(raw.fields[ModeKey]) else None)
  }

  // ---- what the doors accept

  /** Tuples in bounds always pack: the only obstacle is a lone surrogate. */
  lemma PacksIff(x: Signed)
    requires InBounds(x)
    ensures SigningBytes(x).Some? <==> Encodable(x.id) && Encodable(x.displayName) && Encodable(x.baseUrl)
  {
    hide Utf8;
    var ps := Parts(x);
    assert ps == [T(Lit(ISLAND_TAG)), T(x.id), T(x.displayName), T(x.baseUrl), T(x.mode), U32(x.keyVersion), U64(x.at)];
    ModeLength(x.mode);
    assert AllFit(ps);
  }

  predicate Carries(m: map<Name, Value>, x: Signed, key: Str, sig: Str) {
    && x.Island? && m.Keys == KEYS && m[VKey] == Int(V) && m[AlgKey] == Text(Lit("EdDSA"))
    && m[IdKey] == Text(x.id) && m[DisplayNameKey] == Text(x.displayName) && m[BaseUrlKey] == Text(x.baseUrl)
    && m[ModeKey] == Text(x.mode) && m[KeyVersionKey] == Int(x.keyVersion) && m[SignedAtKey] == Int(x.at)
    && m[IslandPubkeyKey] == Text(key) && m[SignatureKey] == Text(sig)
  }

  lemma CarriesIff(m: map<Name, Value>, x: Signed, key: Str, sig: Str)
    requires x.Island?
    ensures Carries(m, x, key, sig) <==> m == Envelope(x, key, sig)
  {
    hide Lit;
    var e := Envelope(x, key, sig);
    assert e.Keys == KEYS;
    assert Carries(m, x, key, sig) ==> forall k :: k in KEYS ==> m[k] == e[k];
  }

  lemma ModeLength(m: Str)
    requires ValidMode(m)
    ensures 0 < |m| <= 9
  {
  }

  /** An accepted structure is the envelope of its own parts. */
  lemma CheckedIsEnvelope(raw: Raw, c: Crypto)
    requires Lawful(c) && Check(raw, c).Some?
    ensures var m := Check(raw, c).value;
            InBounds(m.tuple) && |m.key| == PUBKEY_RAW_LEN && |m.sig| == SIG_LEN
            && EncodeKey(m.key).Some? && raw == Object(Envelope(m.tuple, EncodeKey(m.key).value, c.sigText(m.sig)))
  {
    hide DecodeKey, EncodeKey, Lit, Envelope;
    var key, sig := raw.fields[IslandPubkeyKey].s, raw.fields[SignatureKey].s;
    OneSpelling(key);
    DecodedKey(key);
    var m := Check(raw, c).value;
    assert c.sigText(c.sigRaw(sig).value) == sig;
    CarriesIff(raw.fields, m.tuple, key, sig);
  }

  lemma TupleChecks(m: map<Name, Value>, x: Signed, key: Str, sig: Str)
    requires InBounds(x) && Carries(m, x, key, sig)
    ensures CheckTuple(m[IdKey], m[DisplayNameKey], m[BaseUrlKey], m[ModeKey], m[KeyVersionKey], m[SignedAtKey]) == Some(x)
  {
    ModeLength(x.mode);
    hide Lit, ValidMode;
  }

  /** And the envelope of any tuple, key and signature is accepted as those parts. */
  lemma EnvelopeChecks(x: Signed, key: seq<Byte>, sig: seq<Byte>, c: Crypto)
    requires Lawful(c) && InBounds(x) && |key| == PUBKEY_RAW_LEN && |sig| == SIG_LEN
    ensures EncodeKey(key).Some?
    ensures Check(Object(Envelope(x, EncodeKey(key).value, c.sigText(sig))), c) == Some(Checked(x, key, sig))
  {
    hide DecodeKey, EncodeKey, Envelope, Lit, ValidMode, CheckTuple;
    KeyRoundTrip(key);
    var t, u := EncodeKey(key).value, c.sigText(sig);
    var m := Envelope(x, t, u);
    DecodedKey(t);
    assert c.sigRaw(u) == Some(sig);
    CarriesIff(m, x, t, u);
    TupleChecks(m, x, t, u);
    hide InBounds, Lawful;
  }

  /** A signature by `key` over the tuple, in the only spelling the verifier takes. */
  ghost predicate Genuine(raw: Raw, c: Crypto, x: Signed, key: seq<Byte>, sig: seq<Byte>) {
    && InBounds(x) && SigningBytes(x).Some? && |key| == PUBKEY_RAW_LEN && |sig| == SIG_LEN
    && EncodeKey(key).Some? && raw == Object(Envelope(x, EncodeKey(key).value, c.sigText(sig)))
    && c.verifies(key, sig, SigningBytes(x).value)
  }

  /** VERIFY IS EXACT. It answers True on precisely the envelopes of bounded, encodable tuples whose signature fits
      their canonical bytes: no second spelling, no extra key, no re-typed field. */
  lemma VerifyExact(raw: Raw, c: Crypto)
    requires Lawful(c)
    ensures Verify(raw, c) == Ok(true) <==> exists x, key, sig :: Genuine(raw, c, x, key, sig)
  {
    hide Check, Lawful, SigningBytes, EncodeKey, Envelope, InBounds;
    if Verify(raw, c) == Ok(true) {
      CheckedIsEnvelope(raw, c);
      var m := Check(raw, c).value;
      assert Genuine(raw, c, m.tuple, m.key, m.sig);
    }
    if x, key, sig :| Genuine(raw, c, x, key, sig) {
      EnvelopeChecks(x, key, sig, c);
    }
  }

  /** False is answered on precisely the envelopes that lack only a fitting signature; everything else is an error. */
  lemma VerifyAnswersFalse(raw: Raw, c: Crypto)
    requires Lawful(c)
    ensures Verify(raw, c) == Ok(false) <==> exists x, key, sig :: Forged(raw, c, x, key, sig)
  {
    hide Check, Lawful, SigningBytes, EncodeKey, Envelope, InBounds;
    if Verify(raw, c) == Ok(false) {
      CheckedIsEnvelope(raw, c);
      var m := Check(raw, c).value;
      assert Forged(raw, c, m.tuple, m.key, m.sig);
    }
    if x, key, sig :| Forged(raw, c, x, key, sig) {
      EnvelopeChecks(x, key, sig, c);
    }
  }

  /** The envelope of a bounded, encodable tuple whose signature does not fit its canonical bytes. */
  ghost predicate Forged(raw: Raw, c: Crypto, x: Signed, key: seq<Byte>, sig: seq<Byte>) {
    && InBounds(x) && SigningBytes(x).Some? && |key| == PUBKEY_RAW_LEN && |sig| == SIG_LEN
    && EncodeKey(key).Some? && raw == Object(Envelope(x, EncodeKey(key).value, c.sigText(sig)))
    && !c.verifies(key, sig, SigningBytes(x).value)
  }

  /** A BUILT MANIFEST VERIFIES, and building fails only on a bad tuple, a bad seed or a lone surrogate. */
  lemma BuiltVerifies(c: Crypto, id: Value, name: Value, url: Value, mode: Value, version: Value, at: Value,
                      seed: Option<seq<Byte>>)
    requires Lawful(c)
    ensures var r := Build(c, id, name, url, mode, version, at, seed);
            var x := CheckTuple(id, name, url, mode, version, at);
            && (r.Ok? <==> x.Some? && seed.Some? && |seed.value| == SEED_LEN
                           && Encodable(id.s) && Encodable(name.s) && Encodable(url.s))
            && (r.Ok? ==> Verify(Object(r.value), c) == Ok(true))
  {
    hide Check, EncodeKey, DecodeKey, SigningBytes, Envelope, Encodable, Lit;
    var x := CheckTuple(id, name, url, mode, version, at);
    if x.Some? && seed.Some? && |seed.value| == SEED_LEN {
      ModeLength(mode.s);
      PacksIff(x.value);
      var b := SigningBytes(x.value);
      if b.Some? {
        var key, sig := c.publicKey(seed.value), c.sign(seed.value, b.value);
        EnvelopeChecks(x.value, key, sig, c);
        assert c.verifies(key, sig, b.value);
      }
    }
  }

  /** WHAT IS BUILT IS WHAT WAS ASKED FOR. An accepted build carries the six arguments under their own names, the public
      key of the seed, and that key's signature over the tuple of the six arguments. */
  lemma BuiltCarries(c: Crypto, id: Value, name: Value, url: Value, mode: Value, version: Value, at: Value,
                     seed: Option<seq<Byte>>)
    requires Lawful(c) && Build(c, id, name, url, mode, version, at, seed).Ok?
    ensures var m := Build(c, id, name, url, mode, version, at, seed).value;
            && m.Keys == KEYS && m[VKey] == Int(2) && m[AlgKey] == Text(Lit("EdDSA"))
            && m[IdKey] == id && m[DisplayNameKey] == name && m[BaseUrlKey] == url && m[ModeKey] == mode
            && m[KeyVersionKey] == version && m[SignedAtKey] == at
            && id.Text? && name.Text? && url.Text? && mode.Text? && version.Int? && IntIn(at, 0, MAX_SIGNED_AT)
            && seed.Some? && EncodeKey(c.publicKey(seed.value)).Some?
            && m[IslandPubkeyKey] == Text(EncodeKey(c.publicKey(seed.value)).value)
            && var b := SigningBytes(Island(id.s, name.s, url.s, mode.s, version.n, at.n));
            b.Some? && m[SignatureKey] == Text(c.sigText(c.sign(seed.value, b.value)))
  {
    hide EncodeKey, SigningBytes, ValidMode, Lawful, Lit;
  }

  /** END TO END. What is built is admitted, with the mode that was asked for, exactly while its own stamp lies in the
      reader's window. */
  lemma BuiltIsAdmitted(c: Crypto, id: Value, name: Value, url: Value, mode: Value, version: Value, at: Value,
                        seed: Option<seq<Byte>>, now: Value, maxAge: Value, skew: Value)
    requires Lawful(c) && Build(c, id, name, url, mode, version, at, seed).Ok?
    ensures var m := Build(c, id, name, url, mode, version, at, seed).value;
            at.Int? && (Admit(Object(m), c, now, maxAge, skew) == Ok(Some(mode)) <==> InWindow(at.n, now, maxAge, skew))
  {
    BuiltVerifies(c, id, name, url, mode, version, at, seed);
    BuiltCarries(c, id, name, url, mode, version, at, seed);
    hide *;
    AdmitVerified(Object(Build(c, id, name, url, mode, version, at, seed).value), c, now, maxAge, skew, at.n);
  }

  lemma AdmitVerified(raw: Raw, c: Crypto, now: Value, maxAge: Value, skew: Value, at: int)
    requires Verify(raw, c) == Ok(true) && raw.Object? && raw.fields.Keys == KEYS
    requires raw.fields[SignedAtKey] == Int(at) && 0 <= at <= MAX_SIGNED_AT
    ensures Admit(raw, c, now, maxAge, skew) == Ok(Some(raw.fields[ModeKey])) <==> InWindow(at, now, maxAge, skew)
  {
    hide Verify;
  }

  /** TAMPER EVIDENCE. Two different manifests under one key and one signature both verify only if that very signature
      fits two different byte strings under that very key. */
  lemma TamperEvident(a: Raw, b: Raw, c: Crypto)
    requires Lawful(c) && Verify(a, c) == Ok(true) && Verify(b, c) == Ok(true) && a != b
    requires a.fields[IslandPubkeyKey] == b.fields[IslandPubkeyKey] && a.fields[SignatureKey] == b.fields[SignatureKey]
    ensures Check(a, c).Some? && Check(b, c).Some?
    ensures var m, n := Check(a, c).value, Check(b, c).value;
            && m.key == n.key && m.sig == n.sig && EncodeKey(m.key) == Some(a.fields[IslandPubkeyKey].s)
            && c.sigRaw(a.fields[SignatureKey].s) == Some(m.sig)
            && SigningBytes(m.tuple).Some? && SigningBytes(n.tuple).Some? && SigningBytes(m.tuple) != SigningBytes(n.tuple)
            && c.verifies(m.key, m.sig, SigningBytes(m.tuple).value) && c.verifies(m.key, m.sig, SigningBytes(n.tuple).value)
  {
    CheckedIsEnvelope(a, c);
    CheckedIsEnvelope(b, c);
    var m, n := Check(a, c).value, Check(b, c).value;
    OneSpelling(a.fields[IslandPubkeyKey].s);
    hide SigningBytes, EncodeKey, DecodeKey, Lawful, InBounds, Envelope;
    BytesDetermine(m.tuple, n.tuple);
  }

  /** The one malformation that is not reported as IslandIdentityError: a lone surrogate in a signed text of an
      otherwise well-formed manifest. */
  lemma EscapesIff(raw: Raw, c: Crypto)
    requires Lawful(c)
    ensures Verify(raw, c) == Err(UnicodeEncodeError) <==>
              Check(raw, c).Some? && var x := Check(raw, c).value.tuple;
              x.Island? && !(Encodable(x.id) && Encodable(x.displayName) && Encodable(x.baseUrl))
  {
    if Check(raw, c).Some? {
      CheckedIsEnvelope(raw, c);
      PacksIff(Check(raw, c).value.tuple);
    }
  }

  /** Such manifests exist under every lawful scheme. */
  lemma SurrogateEscapes(c: Crypto)
    requires Lawful(c)
    ensures exists raw :: Verify(raw, c) == Err(UnicodeEncodeError)
  {
    var x := Island([0xD800], [65], [65], Lit("e2ee"), 1, 0);
    var key: seq<Byte>, sig: seq<Byte> := seq(32, _ => 0), seq(64, _ => 0);
    EnvelopeChecks(x, key, sig, c);
    var raw := Object(Envelope(x, EncodeKey(key).value, c.sigText(sig)));
    assert Check(raw, c) == Some(Checked(x, key, sig));
    assert Surrogate(x.id[0]);
    EscapesIff(raw, c);
  }

  predicate InWindow(at: int, now: Value, maxAge: Value, skew: Value) {
    && IntIn(now, 0, 0x4000_0000_0000_0000) && IntIn(maxAge, 0, 300_000) && IntIn(skew, 0, 60_000)
    && at - skew.n <= now.n <= at + maxAge.n
  }

  lemma AdmitGenuine(raw: Raw, c: Crypto, now: Value, maxAge: Value, skew: Value, x: Signed, key: seq<Byte>, sig: seq<Byte>)
    requires Genuine(raw, c, x, key, sig) && Verify(raw, c) == Ok(true)
    ensures raw.fields.Keys == KEYS && raw.fields[SignedAtKey] == Int(x.at) && raw.fields[ModeKey] == Text(x.mode)
    ensures forall mode :: Admit(raw, c, now, maxAge, skew) == Ok(Some(mode)) <==>
                             mode == Text(x.mode) && InWindow(x.at, now, maxAge, skew)
  {
    hide Verify, SigningBytes, Envelope, EncodeKey, ValidMode;
    CarriesIff(raw.fields, x, EncodeKey(key).value, c.sigText(sig));
    hide Lit;
  }

  /** ADMISSION. The mode comes back exactly for a genuine manifest whose signed stamp lies in the window, and no
      knob widens the window past five minutes old or one minute ahead. */
  lemma AdmitExact(raw: Raw, c: Crypto, now: Value, maxAge: Value, skew: Value, mode: Str)
    requires Lawful(c)
    ensures Admit(raw, c, now, maxAge, skew) == Ok(Some(Text(mode))) <==>
              exists x, key, sig :: Genuine(raw, c, x, key, sig) && x.mode == mode && InWindow(x.at, now, maxAge, skew)
  {
    VerifyExact(raw, c);
    if Admit(raw, c, now, maxAge, skew) == Ok(Some(Text(mode))) {
      hide Verify, Lawful, Genuine, IsFresh;
      var x, key, sig :| Genuine(raw, c, x, key, sig);
      AdmitGenuine(raw, c, now, maxAge, skew, x, key, sig);
    }
    hide Verify, Lawful, Admit;
    if x, key, sig :| Genuine(raw, c, x, key, sig) && x.mode == mode && InWindow(x.at, now, maxAge, skew) {
      hide Genuine;
      AdmitGenuine(raw, c, now, maxAge, skew, x, key, sig);
    }
  }

  /** How admission fails: a knob past its cap is an error before anything is read; then the verifier's own error; a forged
      manifest is no mode, whatever the clock; and a genuine one with a clock or knob out of range is an error again. */
  lemma AdmitFails(raw: Raw, c: Crypto, now: Value, maxAge: Value, skew: Value)
    requires Lawful(c)
    ensures var r, v := Admit(raw, c, now, maxAge, skew), Verify(raw, c);
            var wide := (maxAge.Int? && maxAge.n > 300_000) || (skew.Int? && skew.n > 60_000);
            var sane := IntIn(now, 0, 0x4000_0000_0000_0000) && IntIn(maxAge, 0, 300_000) && IntIn(skew, 0, 60_000);
            && (wide ==> r == Err(IslandIdentityError))
            && (!wide && v.Err? ==> r == Err(v.error))
            && (!wide && v == Ok(false) ==> r == Ok(None))
            && (!wide && v == Ok(true) ==> (r.Err? <==> !sane) && (r.Err? ==> r.error == IslandIdentityError))
  {
    hide Verify, Lawful, Genuine, IsFresh;
    if Verify(raw, c) == Ok(true) {
      VerifyExact(raw, c);
      var x, key, sig :| Genuine(raw, c, x, key, sig);
      AdmitGenuine(raw, c, now, maxAge, skew, x, key, sig);
      GenuineStamp(raw, c, x, key, sig);
      FreshAnswers(raw.fields[SignedAtKey], now, maxAge, skew);
    }
  }

  lemma GenuineStamp(raw: Raw, c: Crypto, x: Signed, key: seq<Byte>, sig: seq<Byte>)
    requires Genuine(raw, c, x, key, sig)
    ensures raw.Object? && x.Island? && 0 <= x.at <= MAX_SIGNED_AT
  {
    hide SigningBytes, EncodeKey, Envelope, Lit;
  }

  lemma FreshAnswers(at: Value, now: Value, maxAge: Value, skew: Value)
    requires IntIn(at, 0, MAX_SIGNED_AT)
    ensures IsFresh(at, now, maxAge, skew).Err? <==>
              !(IntIn(now, 0, MAX_SIGNED_AT) && IntIn(maxAge, 0, MAX_SIGNED_AT) && IntIn(skew, 0, MAX_SIGNED_AT))
    ensures IsFresh(at, now, maxAge, skew).Err? ==> IsFresh(at, now, maxAge, skew).error == IslandIdentityError
  {
  }

  /** A captured manifest dies: any two moments at which one manifest is admitted are at most six minutes apart. */
  lemma ReplayWindow(raw: Raw, c: Crypto, now: Value, maxAge: Value, skew: Value, now': Value, maxAge': Value, skew': Value)
    requires Lawful(c)
    requires Admit(raw, c, now, maxAge, skew).Ok? && Admit(raw, c, now, maxAge, skew).value.Some?
    requires Admit(raw, c, now', maxAge', skew').Ok? && Admit(raw, c, now', maxAge', skew').value.Some?
    ensures now.Int? && now'.Int? && now'.n - now.n <= MAX_AGE + MAX_SKEW
  {
    hide Verify, Lawful;
  }
}
