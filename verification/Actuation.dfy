/** The robot's trust boundary (`actuation.py`): envelope verification and the durable sequence high-water mark. */
module Actuation {
  import opened Store
  import opened Bytes
  import opened Multikey
  import opened SignedBytes
  import opened Wire

  const SUPPORTED_V := 1
  const MAX_ROBOT_ID := 128
  const MAX_COMMAND := 64
  const MAX_SIG_STR := 128
  const MAX_SIGNED_AT := 0x4000_0000_0000_0000
  const MAX_SEQ := 0x1F_FFFF_FFFF_FFFF
  const MAX_ALLOWED_AGE := 30_000
  const MAX_FWD_SKEW := 1000

  const KEYS := {VKey, AlgKey, RobotIdKey, CommandKey, SeqKey, SignedAtKey, SenderPubkeyKey, SigKey}

  /** The sole exception of both doors. */
  datatype Error = ActuationError

  /** A caller's argument where the code demands a set: absent, of another type, or the set itself. */
  datatype Names = Absent | WrongType | Of(names: set<Str>)

  /** What the bridge passes along with an envelope. */
  datatype Policy = Policy(keys: Names, commands: Names, robotId: Option<Str>, now: Value, maxAge: Value)

  predicate PolicyOk(p: Policy) {
    p.now.Int? && p.keys.Of? && !p.commands.WrongType? && IntIn(p.maxAge, 0, MAX_ALLOWED_AGE)
  }

  /** `verify_actuation`: the signed tuple of an accepted envelope. */
  function Verify(raw: Raw, p: Policy, c: Crypto): (r: Result<Signed, Error>) {
    if !PolicyOk(p) || raw.NotObject? || raw.fields.Keys != KEYS then Err(ActuationError) else
      var m := raw.fields;
      if m[VKey] != Int(SUPPORTED_V) || m[AlgKey] != Text(Lit("EdDSA")) then Err(ActuationError)
      else if !Bounded(m[RobotIdKey], MAX_ROBOT_ID) || (p.robotId.Some? && m[RobotIdKey].s != p.robotId.value)
      then Err(ActuationError)
      else if !Bounded(m[CommandKey], MAX_COMMAND) || (p.commands.Of? && m[CommandKey].s !in p.commands.names)
      then Err(ActuationError)
      else if !IntIn(m[SeqKey], 0, MAX_SEQ) || !IntIn(m[SignedAtKey], 0, MAX_SIGNED_AT) then Err(ActuationError)
      else if !m[SenderPubkeyKey].Text? || |m[SenderPubkeyKey].s| > MAX_PUBKEY_STR then Err(ActuationError)
      else
        var key := DecodeKey(m[SenderPubkeyKey].s);
        if key.None? || EncodeKey(key.value).None? || EncodeKey(key.value).value !in p.keys.names then Err(ActuationError)
        else if !m[SigKey].Text? || |m[SigKey].s| > MAX_SIG_STR || c.sigRaw(m[SigKey].s).None? then Err(ActuationError)
        else
          var x := Actuate(key.value, m[RobotIdKey].s, m[CommandKey].s, m[SeqKey].n, m[SignedAtKey].n);
          var b := SigningBytes(x);
          if b.None? || !c.verifies(key.value, c.sigRaw(m[SigKey].s).value, b.value) then Err(ActuationError)
          else
            var age := p.now.n - x.at;
            if age > p.maxAge.n || age < -MAX_FWD_SKEW then Err(ActuationError) else Ok(x)
  }

  /** A command within its bounds. */
  predicate InBounds(x: Signed) {
    && x.Actuate? && |x.key| == 32
    && 0 < |x.robotId| <= 128 && Encodable(x.robotId)
    && 0 < |x.command| <= 64 && Encodable(x.command)
    && 0 <= x.number < 0x20_0000_0000_0000 && 0 <= x.at <= 0x4000_0000_0000_0000
  }

  predicate Carries(m: map<Name, Value>, x: Signed, key: Str, sig: Str) {
    && x.Actuate? && m.Keys == KEYS && m[VKey] == Int(1) && m[AlgKey] == Text(Lit("EdDSA"))
    && m[RobotIdKey] == Text(x.robotId) && m[CommandKey] == Text(x.command) && m[SeqKey] == Int(x.number)
    && m[SignedAtKey] == Int(x.at) && m[SenderPubkeyKey] == Text(key) && m[SigKey] == Text(sig)
  }

  /** The policy admits the command: who, which robot, which command, and when. It names its keys, and no argument widens
      the window past thirty seconds old or one second ahead. */
  predicate Permits(p: Policy, x: Signed) {
    && x.Actuate? && p.keys.Of? && EncodeKey(x.key).Some? && EncodeKey(x.key).value in p.keys.names
    && (p.robotId.Some? ==> x.robotId == p.robotId.value)
    && (p.commands.Absent? || (p.commands.Of? && x.command in p.commands.names))
    && p.now.Int? && p.maxAge.Int? && 0 <= p.maxAge.n <= 30_000
    && x.at - 1000 <= p.now.n <= x.at + p.maxAge.n
  }

  /** A signature by the tuple's own key over the tuple, in the only spelling the verifier takes. */
  ghost predicate Genuine(raw: Raw, c: Crypto, x: Signed, sig: seq<Byte>) {
    && InBounds(x) && |sig| == SIG_LEN && EncodeKey(x.key).Some? && SigningBytes(x).Some?
    && raw.Object? && Carries(raw.fields, x, EncodeKey(x.key).value, c.sigText(sig))
    && c.verifies(x.key, sig, SigningBytes(x).value)
  }

  lemma PacksIff(x: Signed)
    requires x.Actuate? && |x.key| == PUBKEY_RAW_LEN && |x.robotId| <= MAX_ROBOT_ID && |x.command| <= MAX_COMMAND
    requires 0 <= x.number <= MAX_SEQ && 0 <= x.at <= MAX_SIGNED_AT
    ensures SigningBytes(x).Some? <==> Encodable(x.robotId) && Encodable(x.command)
  {
    hide Utf8;
    var ps := Parts(x);
    assert ps == [T(Lit(ACTUATE_TAG)), Blob(x.key), T(x.robotId), T(x.command), U64(x.number), U64(x.at)];
    assert AllFit(ps);
  }

  lemma AcceptedIsGenuine(raw: Raw, p: Policy, c: Crypto)
    requires Lawful(c) && Verify(raw, p, c).Ok?
    ensures Permits(p, Verify(raw, p, c).value)
    ensures exists sig :: Genuine(raw, c, Verify(raw, p, c).value, sig)
  {
    hide DecodeKey, EncodeKey, Lit, SigningBytes;
    var key, text := raw.fields[SenderPubkeyKey].s, raw.fields[SigKey].s;
    DecodedKey(key);
    var x := Verify(raw, p, c).value;
    PacksIff(x);
    assert c.sigText(c.sigRaw(text).value) == text;
    assert Genuine(raw, c, x, c.sigRaw(text).value);
  }

  lemma GenuineIsAccepted(raw: Raw, p: Policy, c: Crypto, x: Signed, sig: seq<Byte>)
    requires Lawful(c) && Genuine(raw, c, x, sig) && Permits(p, x)
    ensures Verify(raw, p, c) == Ok(x)
  {
    hide DecodeKey, EncodeKey, Lit, SigningBytes;
    KeyRoundTrip(x.key);
    DecodedKey(EncodeKey(x.key).value);
    assert c.sigRaw(c.sigText(sig)) == Some(sig);
  }

  /** VERIFICATION IS EXACT. An envelope is accepted as command `x` precisely when it is the one spelling of a bounded,
      encodable `x`, signed over its canonical bytes by a key the policy lists, addressed, commanded and timed as the
      policy allows. */
  lemma VerifyExact(raw: Raw, p: Policy, c: Crypto, x: Signed)
    requires Lawful(c)
    ensures Verify(raw, p, c) == Ok(x) <==> Permits(p, x) && exists sig :: Genuine(raw, c, x, sig)
  {
    hide Permits, Genuine, Lawful;
    if Verify(raw, p, c) == Ok(x) {
      AcceptedIsGenuine(raw, p, c);
    }
    hide Verify;
    if sig :| Genuine(raw, c, x, sig) && Permits(p, x) {
      GenuineIsAccepted(raw, p, c, x, sig);
    }
  }

  /** One key and signature accepted for two different commands: that very signature fits two different byte strings
      under that very key. */
  lemma TamperEvident(a: Raw, p: Policy, b: Raw, q: Policy, c: Crypto)
    requires Lawful(c) && Verify(a, p, c).Ok? && Verify(b, q, c).Ok? && Verify(a, p, c) != Verify(b, q, c)
    requires a.fields[SenderPubkeyKey] == b.fields[SenderPubkeyKey] && a.fields[SigKey] == b.fields[SigKey]
    ensures var x, y, sig := Verify(a, p, c).value, Verify(b, q, c).value, c.sigRaw(a.fields[SigKey].s);
            && sig.Some? && x.key == y.key && EncodeKey(x.key) == Some(a.fields[SenderPubkeyKey].s)
            && SigningBytes(x).Some? && SigningBytes(y).Some? && SigningBytes(x) != SigningBytes(y)
            && c.verifies(x.key, sig.value, SigningBytes(x).value) && c.verifies(x.key, sig.value, SigningBytes(y).value)
  {
    hide Lawful, EncodeKey, DecodeKey, SigningBytes, Lit, PolicyOk, Bounded;
    var x, y := Verify(a, p, c).value, Verify(b, q, c).value;
    DecodedKey(a.fields[SenderPubkeyKey].s);
    BytesDetermine(x, y);
  }

  // ---- SeqHighWater

  type Marks = map<Str, nat>

  /** The store file, as reading and parsing it turns out. */
  datatype Disk = Missing | Unparsable | NotADict | Stored(entries: map<Str, Value>)

  /** What a JSON parser can hand over: member names with their surrogate pairs joined. */
  predicate Parsed(d: Disk) { d.Stored? ==> forall r :: r in d.entries ==> NoPair(r) }

  predicate GoodEntry(robot: Str, v: Value) { 0 < |robot| <= MAX_ROBOT_ID && IntIn(v, 0, MAX_SEQ) }

  function JoinedIds(m: Marks): (ids: set<Str>) { set r | r in m :: Joined(r) }

  /** An id that is read back as `j`; which one, when several are, depends on an order the map does not record. */
  ghost function Source(m: Marks, j: Str): (r: Str)
    requires j in JoinedIds(m)
    ensures r in m && Joined(r) == j
  {
    var r :| r in m && Joined(r) == j;
    r
  }

  /** The file `json.dump(self._marks)` leaves, as it will be read. */
  ghost function Dump(m: Marks): (d: Disk) { Stored(map j | j in JoinedIds(m) :: Int(m[Source(m, j)])) }

  /** The constructor's loader: all of the store, or refuse to start. */
  function Load(d: Disk): (r: Result<Marks, Error>) {
    match d
    case Missing => Ok(map[])
    case Unparsable => Err(ActuationError)
    case NotADict => Err(ActuationError)
    case Stored(es) =>
      if forall r :: r in es ==> GoodEntry(r, es[r]) then Ok(map r | r in es :: es[r].n as nat)
      else Err(ActuationError)
  }

  /** STARTING, EXACTLY. The process starts with marks `m` if and only if there is no store and `m` is empty, or the store
      is a JSON object of non-empty ids of at most 128 characters and integers in [0, 2^53 - 1], and `m` is all of it. A
      store that does not parse, is no object, or holds one bad entry never starts it. */
  lemma LoadExact(d: Disk, m: Marks)
    ensures Load(d) == Ok(m) <==>
              || (d.Missing? && m == map[])
              || (d.Stored? && m.Keys == d.entries.Keys
                  && forall r :: r in m ==> 0 < |r| <= 128 && m[r] <= 9007199254740991 && d.entries[r] == Int(m[r]))
    ensures Load(d).Err? <==>
              || d.Unparsable? || d.NotADict?
              || (d.Stored? && exists r :: r in d.entries && !(0 < |r| <= 128 && IntIn(d.entries[r], 0, 9007199254740991)))
  {
    if d.Stored? && Load(d).Ok? && m.Keys == d.entries.Keys && forall r :: r in m ==> d.entries[r] == Int(m[r]) {
      assert m == Load(d).value;
    }
  }

  predicate GoodMarks(m: Marks) { forall r :: r in m ==> 0 < |r| <= MAX_ROBOT_ID && NoPair(r) && m[r] <= MAX_SEQ }

  lemma DumpParses(m: Marks)
    ensures Parsed(Dump(m))
  {
    forall j | j in JoinedIds(m) ensures NoPair(j) {
      JoinedHasNoPair(Source(m, j));
    }
  }

  lemma SourceOfUnpaired(m: Marks, r: Str)
    requires r in m && forall k :: k in m ==> NoPair(k)
    ensures r in JoinedIds(m) && Source(m, r) == r && Joined(r) == r
  {
    JoinedIsSameIff(r);
    assert Joined(r) in JoinedIds(m);
    JoinedIsSameIff(Source(m, r));
  }

  /** Dumped marks are accepted on reload exactly when every id, as it is read back, is within the loader's cap. */
  lemma LoadsIff(m: Marks)
    requires forall r :: r in m ==> m[r] <= MAX_SEQ
    ensures Load(Dump(m)).Ok? <==> forall r :: r in m ==> 0 < |Joined(r)| <= MAX_ROBOT_ID
  {
    hide Joined;
    var es := Dump(m).entries;
    if forall r :: r in m ==> 0 < |Joined(r)| <= MAX_ROBOT_ID {
      forall j | j in es ensures GoodEntry(j, es[j]) {
        assert Source(m, j) in m;
      }
    } else {
      var r :| r in m && !(0 < |Joined(r)| <= MAX_ROBOT_ID);
      assert Joined(r) in JoinedIds(m);
      assert !GoodEntry(Joined(r), es[Joined(r)]);
    }
  }

  lemma IdsOfGood(m: Marks)
    requires forall k :: k in m ==> NoPair(k)
    ensures JoinedIds(m) == m.Keys
  {
    hide Joined, NoPair;
    forall r | r in m ensures r in JoinedIds(m) {
      SourceOfUnpaired(m, r);
    }
    forall j | j in JoinedIds(m) ensures j in m {
      JoinedIsSameIff(Source(m, j));
    }
  }

  lemma DumpOfGood(m: Marks)
    requires GoodMarks(m)
    ensures Dump(m) == Stored(map r | r in m :: Int(m[r]))
  {
    IdsOfGood(m);
    forall r | r in m ensures r in JoinedIds(m) && Source(m, r) == r {
      SourceOfUnpaired(m, r);
    }
    hide GoodMarks, JoinedIds, Source;
  }

  lemma GoodReloads(m: Marks)
    requires GoodMarks(m)
    ensures Load(Stored(map r | r in m :: Int(m[r]))) == Ok(m)
  {
    hide NoPair;
    var es := map r | r in m :: Int(m[r]);
    assert forall r :: r in es ==> GoodEntry(r, es[r]);
    assert Load(Stored(es)).value == m;
  }

  /** Dumped marks come back as they were exactly when they are within the loader's bounds and no id holds a
      surrogate pair. */
  lemma LoadOfDump(m: Marks)
    ensures Load(Dump(m)) == Ok(m) <==> GoodMarks(m)
  {
    hide Load, Dump, GoodMarks;
    if GoodMarks(m) {
      DumpOfGood(m);
      GoodReloads(m);
    } else if Load(Dump(m)) == Ok(m) {
      DumpParses(m);
      LoadedIsGood(Dump(m));
    }
  }

  lemma LoadedIsGood(d: Disk)
    requires Load(d).Ok? && Parsed(d)
    ensures GoodMarks(Load(d).value)
  {
    hide NoPair;
  }

  function Mark(m: Marks, robot: Str): (n: int) { if robot in m then m[robot] else -1 }

  /** `_check_and_advance`: `persists` tells whether every step up to `os.replace` succeeds. */
  ghost function Advance(m: Marks, d: Disk, robot: Str, number: int, persists: bool): (r: (Result<bool, Error>, Marks, Disk)) {
    if robot == [] || number < 0 || number > MAX_SEQ then (Err(ActuationError), m, d)
    else if number <= Mark(m, robot) then (Ok(false), m, d)
    else if !persists then (Err(ActuationError), m, d)
    else (Ok(true), m[robot := number], Dump(m[robot := number]))
  }

  /** ADVANCING, EXACTLY. The mark moves, to the new number and for this robot alone, if and only if the arguments are in
      range, the number exceeds the mark, and the write succeeded; an old number is told apart from a failure, and
      neither leaves a trace in memory or on disk. */
  lemma AdvanceExact(m: Marks, d: Disk, robot: Str, number: int, persists: bool)
    ensures var (r, m', d') := Advance(m, d, robot, number, persists);
            var inRange := robot != [] && 0 <= number < 0x20_0000_0000_0000;
            var above := robot in m ==> number > m[robot];
            && (r == Ok(true) <==> inRange && above && persists)
            && (r == Ok(false) <==> inRange && !above)
            && (r == Ok(true) ==> m' == m[robot := number] && d' == Dump(m'))
            && (r != Ok(true) ==> m' == m && d' == d)
  {
    hide Dump;
  }

  /** `verify_and_advance`. */
  ghost function Door(raw: Raw, p: Policy, c: Crypto, m: Marks, d: Disk, persists: bool): (r: (Result<Signed, Error>, Marks, Disk)) {
    if p.robotId.None? || p.robotId.value == [] || !p.commands.Of? || p.commands.names == {} || !p.keys.Of? || p.keys.names == {}
    then (Err(ActuationError), m, d)
    else
      var x := Verify(raw, p, c);
      if x.Err? then (Err(ActuationError), m, d)
      else
        var (ok, m', d') := Advance(m, d, x.value.robotId, x.value.number, persists);
        (if ok == Ok(true) then x else Err(ActuationError), m', d')
  }

  /** THE SEALED DOOR. It opens exactly for a verified command whose number exceeds the mark and whose mark was
      committed; a closed door changes neither memory nor disk, and an open one leaves a store that reloads as is. */
  lemma DoorExact(raw: Raw, p: Policy, c: Crypto, m: Marks, d: Disk, persists: bool)
    requires Lawful(c) && GoodMarks(m)
    ensures var (r, m', d') := Door(raw, p, c, m, d, persists);
            && (r.Err? ==> m' == m && d' == d)
            && (r.Ok? ==> var x := r.value;
                  InBounds(x) && Mark(m, x.robotId) < x.number && persists && p.robotId == Some(x.robotId)
                  && m' == m[x.robotId := x.number] && Load(d') == Ok(m') && GoodMarks(m'))
            && (forall x: Signed :: r == Ok(x) <==>
                  && p.robotId.Some? && p.commands.Of? && Permits(p, x) && (exists sig :: Genuine(raw, c, x, sig))
                  && Mark(m, x.robotId) < x.number && persists)
  {
    hide Verify, Permits, Genuine, Lawful, Load, Dump, NoPair, Encodable;
    forall x ensures Verify(raw, p, c) == Ok(x) <==> Permits(p, x) && exists sig :: Genuine(raw, c, x, sig) {
      VerifyExact(raw, p, c, x);
    }
    if Verify(raw, p, c).Ok? {
      var x := Verify(raw, p, c).value;
      AcceptedWithinBounds(raw, p, c, x);
      EncodableHasNoPair(x.robotId);
      LoadOfDump(m[x.robotId := x.number]);
    }
    forall x | Permits(p, x)
      ensures p.keys.Of? && p.keys.names != {} && x.Actuate?
      ensures p.commands.Of? ==> p.commands.names != {}
      ensures p.robotId.Some? ==> p.robotId.value == x.robotId
    {
      PermitsNames(p, x);
    }
  }

  lemma AcceptedWithinBounds(raw: Raw, p: Policy, c: Crypto, x: Signed)
    requires Lawful(c) && Verify(raw, p, c) == Ok(x)
    ensures InBounds(x) && (p.robotId.Some? ==> p.robotId.value == x.robotId)
  {
    hide Verify;
    VerifyExact(raw, p, c, x);
    hide EncodeKey, SigningBytes, Carries;
  }

  lemma PermitsNames(p: Policy, x: Signed)
    requires Permits(p, x)
    ensures p.keys.Of? && p.keys.names != {} && x.Actuate?
    ensures p.commands.Of? ==> p.commands.names != {}
    ensures p.robotId.Some? ==> p.robotId.value == x.robotId
  {
    hide EncodeKey;
  }

  /** The primitive behind the door caps neither the id's length nor its surrogates. Called directly, it commits a
      store that the next start accepts if and only if the id as read back is within the cap, and reads as written if
      and only if the id is within the cap and holds no surrogate pair. */
  lemma DirectAdvanceReloads(m: Marks, d: Disk, robot: Str, number: int)
    requires GoodMarks(m) && Advance(m, d, robot, number, true).0 == Ok(true)
    ensures Load(Advance(m, d, robot, number, true).2).Ok? <==> |Joined(robot)| <= MAX_ROBOT_ID
    ensures Load(Advance(m, d, robot, number, true).2) == Ok(m[robot := number]) <==> |robot| <= MAX_ROBOT_ID && NoPair(robot)
  {
    hide Load, Dump, Joined, NoPair;
    var m' := m[robot := number];
    LoadsIff(m');
    LoadOfDump(m');
    assert robot in m' && m'[robot] == number;
    forall r | r in m && r != robot ensures Joined(r) == r {
      JoinedIsSameIff(r);
    }
    assert GoodMarks(m') <==> |robot| <= MAX_ROBOT_ID && NoPair(robot);
  }

  /** A 129-character id, directly advanced, makes the next start refuse. */
  lemma OverlongIdBlocksRestart()
    ensures var robot: Str := seq(129, _ => 65);
            Advance(map[], Missing, robot, 0, true).0 == Ok(true)
            && Load(Advance(map[], Missing, robot, 0, true).2).Err?
  {
    var robot: Str := seq(129, _ => 65);
    JoinedIsSameIff(robot);
    hide Load, Dump, Joined;
    DirectAdvanceReloads(map[], Missing, robot, 0);
  }

  /** A two-character id made of a surrogate pair loses its mark over a restart: the old number is admitted again. */
  lemma PairedIdLosesItsMark()
    ensures var robot: Str := [0xD83D, 0xDE00];
            var (ok, m, d) := Advance(map[], Missing, robot, 7, true);
            && ok == Ok(true) && Load(d).Ok? && robot !in Load(d).value
            && Advance(Load(d).value, d, robot, 7, true).0 == Ok(true)
  {
    var robot: Str := [0xD83D, 0xDE00];
    var (_, m, d) := Advance(map[], Missing, robot, 7, true);
    assert !NoPair(robot) by {
      assert High(robot[0]) && Low(robot[0 + 1]);
    }
    JoinedIsSameIff(robot);
    DirectAdvanceReloads(map[], Missing, robot, 7);
    DumpParses(m);
    LoadedIsGood(d);
    hide Load, Dump, Joined, NoPair;
  }

  /** The in-memory marks and the store file, updated as the class updates them. */
  class SeqHighWater {
    var marks: Marks
    ghost var disk: Disk

    constructor (marks: Marks, ghost disk: Disk)
      requires Load(disk) == Ok(marks)
      ensures this.marks == marks && this.disk == disk
    {
      this.marks, this.disk := marks, disk;
    }

    /** Writes the marks into memory first, and takes them back when the write to disk fails. */
    method CheckAndAdvance(robot: Str, number: int, persists: bool) returns (r: Result<bool, Error>)
      modifies this
      ensures (r, marks, disk) == Advance(old(marks), old(disk), robot, number, persists)
    {
      if robot == [] || number < 0 || number > MAX_SEQ { return Err(ActuationError); }
      var prev := if robot in marks then Some(marks[robot]) else None;
      if number <= (if prev.Some? then prev.value else -1) { return Ok(false); }
      marks := marks[robot := number];
      var committed := Persist(persists);
      if !committed {
        if prev.None? { marks := marks - {robot}; } else { marks := marks[robot := prev.value]; }
        assert marks == old(marks);
        return Err(ActuationError);
      }
      return Ok(true);
    }

    method Persist(succeeds: bool) returns (committed: bool)
      modifies this`disk
      ensures committed == succeeds
      ensures disk == if succeeds then Dump(marks) else old(disk)
    {
      if succeeds { disk := Dump(marks); }
      return succeeds;
    }
  }

  /** The loader's loop over the stored items. */
  method LoadMarks(d: Disk) returns (r: Result<Marks, Error>)
    ensures r == Load(d)
  {
    if d.Missing? { return Ok(map[]); }
    if d.Unparsable? || d.NotADict? { return Err(ActuationError); }
    var es := d.entries;
    var marks: Marks := map[];
    var todo := es.Keys;
    while todo != {}
      invariant todo <= es.Keys && marks.Keys == es.Keys - todo
      invariant forall k :: k in marks ==> GoodEntry(k, es[k]) && marks[k] == es[k].n
      decreases |todo|
    {
      var k :| k in todo;
      if !GoodEntry(k, es[k]) { return Err(ActuationError); }
      marks := marks[k := es[k].n];
      todo := todo - {k};
    }
    assert marks == map k | k in es :: es[k].n as nat;
    r := Ok(marks);
  }
}
