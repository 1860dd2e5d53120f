/** What the gateway's Ed25519 signatures cover: four domain-tagged layouts over one framing (`signing.py`,
    `actuation.py`, `island_identity.py`). */
module SignedBytes {
  import opened Store
  import opened Bytes

  const MSG_TAG := "aikochat:msg:v1:EdDSA"
  const REACT_TAG := "aikochat:react:v1:EdDSA"
  const ACTUATE_TAG := "aikochat:actuate:v1:EdDSA"
  const ISLAND_TAG := "aikochat:island:v1:EdDSA"

  datatype Signed =
    | Msg(key: seq<Byte>, channel: Str, clientMsgId: Str, at: int, body: Str, replyTo: Option<Str>)
    | React(key: seq<Byte>, channel: Str, clientMsgId: Str, at: int, target: Str, emoji: Str, action: Str)
    | Actuate(key: seq<Byte>, robotId: Str, command: Str, number: int, at: int)
    | Island(id: Str, displayName: Str, baseUrl: Str, mode: Str, keyVersion: int, at: int)

  function Tag(x: Signed): (t: Str) {
    match x
    case Msg(_, _, _, _, _, _) => Lit(MSG_TAG)
    case React(_, _, _, _, _, _, _) => Lit(REACT_TAG)
    case Actuate(_, _, _, _, _) => Lit(ACTUATE_TAG)
    case Island(_, _, _, _, _, _) => Lit(ISLAND_TAG)
  }

  function T(s: Str): (p: Part) { Blob(Utf8(s)) }

  /** `reply_to or ""`. */
  function OrEmpty(s: Option<Str>): (r: Str) { if s.Some? then s.value else [] }

  /** The fields after the tag, in signing order. */
  function Fields(x: Signed): (ps: seq<Part>) {
    match x
    case Msg(k, ch, c, at, body, reply) => [Blob(k), T(ch), T(c), U64(at), T(body), T(OrEmpty(reply))]
    case React(k, ch, c, at, target, emoji, action) => [Blob(k), T(ch), T(c), U64(at), T(target), T(emoji), T(action)]
    case Actuate(k, robot, command, n, at) => [Blob(k), T(robot), T(command), U64(n), U64(at)]
    case Island(id, name, url, mode, version, at) => [T(id), T(name), T(url), T(mode), U32(version), U64(at)]
  }

  function Parts(x: Signed): (ps: seq<Part>) { [T(Tag(x))] + Fields(x) }

  /** No field makes `str.encode` raise. */
  predicate Texts(x: Signed) {
    match x
    case Msg(_, ch, c, _, body, reply) => Encodable(ch) && Encodable(c) && Encodable(body) && Encodable(OrEmpty(reply))
    case React(_, ch, c, _, target, emoji, action) =>
      Encodable(ch) && Encodable(c) && Encodable(target) && Encodable(emoji) && Encodable(action)
    case Actuate(_, robot, command, _, _) => Encodable(robot) && Encodable(command)
    case Island(id, name, url, mode, _, _) => Encodable(id) && Encodable(name) && Encodable(url) && Encodable(mode)
  }

  predicate AllFit(ps: seq<Part>) { forall i :: 0 <= i < |ps| ==> Fits(ps[i]) }

  /** The bytes under the signature; None where the code raises UnicodeEncodeError or struct.error. */
  function SigningBytes(x: Signed): (b: Option<seq<Byte>>) {
    if Texts(x) && AllFit(Parts(x)) then Some(Frame(Parts(x))) else None
  }

  /** A message signature does not distinguish an absent `reply_to` from an empty one. */
  function Normal(x: Signed): (y: Signed) { if x.Msg? then x.(replyTo := Some(OrEmpty(x.replyTo))) else x }

  lemma TagsDiffer(x: Signed, y: Signed)
    ensures Tag(x) == Tag(y) <==> (x.Msg? && y.Msg?) || (x.React? && y.React?) || (x.Actuate? && y.Actuate?) || (x.Island? && y.Island?)
  {
    assert |Tag(x)| == if x.Msg? then 21 else if x.React? then 23 else if x.Actuate? then 25 else 24;
    assert |Tag(y)| == if y.Msg? then 21 else if y.React? then 23 else if y.Actuate? then 25 else 24;
  }

  lemma TextInjective(s: Str, t: Str)
    ensures T(s) == T(t) <==> s == t
  {
    if T(s) == T(t) {
      Utf8Injective(s, t);
    }
  }

  /** One layout per tag, and a layout determines its fields. */
  lemma SameParts(x: Signed, y: Signed)
    requires Tag(x) == Tag(y) && Fields(x) == Fields(y)
    ensures Normal(x) == Normal(y)
  {
    TagsDiffer(x, y);
    hide Utf8;
    var p, q := Fields(x), Fields(y);
    assert p[0] == q[0] && p[1] == q[1] && p[2] == q[2] && p[3] == q[3] && p[4] == q[4];
    assert |p| > 5 ==> p[5] == q[5];
    assert |p| > 6 ==> p[6] == q[6];
    match x {
      case Msg(_, ch, c, _, body, reply) =>
        TextInjective(ch, y.channel);
        TextInjective(c, y.clientMsgId);
        TextInjective(body, y.body);
        TextInjective(OrEmpty(reply), OrEmpty(y.replyTo));
      case React(_, ch, c, _, target, emoji, action) =>
        TextInjective(ch, y.channel);
        TextInjective(c, y.clientMsgId);
        TextInjective(target, y.target);
        TextInjective(emoji, y.emoji);
        TextInjective(action, y.action);
      case Actuate(_, robot, command, _, _) =>
        TextInjective(robot, y.robotId);
        TextInjective(command, y.command);
      case Island(id, name, url, mode, _, _) =>
        TextInjective(id, y.id);
        TextInjective(name, y.displayName);
        TextInjective(url, y.baseUrl);
        TextInjective(mode, y.mode);
    }
  }

  lemma SameLayout(x: Signed, y: Signed)
    requires Tag(x) == Tag(y)
    ensures |Parts(x)| == |Parts(y)| && forall i :: 0 <= i < |Parts(x)| ==> SameKind(Parts(x)[i], Parts(y)[i])
  {
    TagsDiffer(x, y);
    hide Utf8, Lit;
  }

  /** CANONICAL BYTES. Two signable values of any of the four kinds have equal signing bytes exactly when they are
      the same value (up to `reply_to or ""`): injective within a domain, disjoint across domains. */
  lemma BytesDetermine(x: Signed, y: Signed)
    requires SigningBytes(x).Some? && SigningBytes(y).Some?
    ensures SigningBytes(x) == SigningBytes(y) <==> Normal(x) == Normal(y)
  {
    hide Frame, Utf8, Fits;
    if Tag(x) != Tag(y) {
      TextInjective(Tag(x), Tag(y));
      TagsSeparate(Parts(x), Parts(y));
    } else if SigningBytes(x) == SigningBytes(y) {
      SameLayout(x, y);
      FrameInjective(Parts(x), Parts(y));
      assert Fields(x) == Parts(x)[1..] && Fields(y) == Parts(y)[1..];
      SameParts(x, y);
    } else {
      assert Normal(x) == Normal(y) ==> Fields(x) == Fields(y);
    }
  }

  /** An actuation signature can never be presented as an island signature, nor either as a message or reaction. */
  lemma DomainsDisjoint(x: Signed, y: Signed)
    requires SigningBytes(x).Some? && SigningBytes(y).Some? && Tag(x) != Tag(y)
    ensures SigningBytes(x) != SigningBytes(y)
  {
    hide SigningBytes;
    TagsDiffer(x, y);
    BytesDetermine(x, y);
  }

  /** A text preceded by its length in four big-endian bytes. */
  function Prefixed(b: seq<Byte>): (r: seq<Byte>)
    requires |b| < U32_SIZE
  {
    BigEndian(|b|, 4) + b
  }

  lemma FrameOf(p: Part, rest: seq<Part>)
    requires Fits(p) && AllFit(rest)
    ensures AllFit([p] + rest) && Frame([p] + rest) == Pack(p) + Frame(rest)
  {
    assert ([p] + rest)[1..] == rest;
  }

  lemma FrameOfThree(p: Part, q: Part, r: Part, rest: seq<Part>)
    requires Fits(p) && Fits(q) && Fits(r) && AllFit(rest)
    ensures AllFit([p, q, r] + rest) && Frame([p, q, r] + rest) == Pack(p) + Pack(q) + Pack(r) + Frame(rest)
  {
    hide Frame, Pack, Fits;
    FrameOf(r, rest);
    FrameOf(q, [r] + rest);
    FrameOf(p, [q] + ([r] + rest));
    assert [p, q, r] + rest == [p] + ([q] + ([r] + rest));
  }

  lemma FrameOfSix(a: Part, b: Part, c: Part, d: Part, e: Part, f: Part)
    requires Fits(a) && Fits(b) && Fits(c) && Fits(d) && Fits(e) && Fits(f)
    ensures AllFit([a, b, c, d, e, f])
    ensures Frame([a, b, c, d, e, f]) == Pack(a) + Pack(b) + Pack(c) + Pack(d) + Pack(e) + Pack(f)
  {
    assert Frame([]) == [];
    hide Frame, Pack, Fits, AllFit;
    FrameOfThree(d, e, f, []);
    JoinThree([], d, e, f);
    FrameOfThree(a, b, c, [d, e, f]);
    JoinThree([d, e, f], a, b, c);
    Regroup(Pack(a) + Pack(b) + Pack(c), Pack(d), Pack(e), Pack(f));
  }

  lemma JoinThree(rest: seq<Part>, a: Part, b: Part, c: Part)
    ensures rest == [] ==> [a, b, c] + rest == [a, b, c]
    ensures |rest| == 3 ==> [a, b, c] + rest == [a, b, c, rest[0], rest[1], rest[2]]
    ensures |rest| == 4 ==> [a, b, c] + rest == [a, b, c, rest[0], rest[1], rest[2], rest[3]]
  {
  }

  lemma Regroup(x: seq<Byte>, u: seq<Byte>, v: seq<Byte>, w: seq<Byte>)
    ensures x + (u + v + w + []) == x + u + v + w
  {
  }

  /** THE LAYOUT of an actuation, flat: tag, raw key, robot and command, each behind its length, then the number and the
      stamp in eight bytes each. */
  lemma ActuationLayout(x: Signed)
    requires x.Actuate? && SigningBytes(x).Some?
    ensures var tag, robot, command := Utf8(Lit("aikochat:actuate:v1:EdDSA")), Utf8(x.robotId), Utf8(x.command);
            && |tag| < U32_SIZE && |x.key| < U32_SIZE && |robot| < U32_SIZE && |command| < U32_SIZE
            && x.number >= 0 && x.at >= 0
            && SigningBytes(x).value == Prefixed(tag) + Prefixed(x.key) + Prefixed(robot) + Prefixed(command)
                                        + BigEndian(x.number, 8) + BigEndian(x.at, 8)
  {
    hide Utf8, BigEndian, Lit, Frame;
    ActuationParts(x);
    hide Parts, Fields, Tag, Texts, AllFit;
    FrameOfSix(T(Lit(ACTUATE_TAG)), Blob(x.key), T(x.robotId), T(x.command), U64(x.number), U64(x.at));
  }

  lemma ActuationParts(x: Signed)
    requires x.Actuate? && SigningBytes(x).Some?
    ensures Parts(x) == [T(Lit(ACTUATE_TAG)), Blob(x.key), T(x.robotId), T(x.command), U64(x.number), U64(x.at)]
    ensures Fits(T(Lit(ACTUATE_TAG))) && Fits(Blob(x.key)) && Fits(T(x.robotId)) && Fits(T(x.command))
    ensures Fits(U64(x.number)) && Fits(U64(x.at))
  {
    hide Utf8, Lit, Frame, Fits;
    var ps := Parts(x);
    assert ps == [T(Lit(ACTUATE_TAG)), Blob(x.key), T(x.robotId), T(x.command), U64(x.number), U64(x.at)];
    assert Fits(ps[0]) && Fits(ps[1]) && Fits(ps[2]) && Fits(ps[3]) && Fits(ps[4]) && Fits(ps[5]);
  }

  /** And of a manifest: tag, id, display name, base URL and mode, each behind its length, then the key version in four
      bytes and the stamp in eight. */
  lemma ManifestLayout(x: Signed)
    requires x.Island? && SigningBytes(x).Some?
    ensures var tag, id, name := Utf8(Lit("aikochat:island:v1:EdDSA")), Utf8(x.id), Utf8(x.displayName);
            var url, mode := Utf8(x.baseUrl), Utf8(x.mode);
            && |tag| < U32_SIZE && |id| < U32_SIZE && |name| < U32_SIZE && |url| < U32_SIZE && |mode| < U32_SIZE
            && x.keyVersion >= 0 && x.at >= 0
            && SigningBytes(x).value == Prefixed(tag) + Prefixed(id) + Prefixed(name) + Prefixed(url) + Prefixed(mode)
                                        + BigEndian(x.keyVersion, 4) + BigEndian(x.at, 8)
  {
    hide Utf8, BigEndian, Lit, Frame;
    ManifestParts(x);
    hide Parts, Fields, Tag, Texts, AllFit;
    FrameOfSeven(T(Lit(ISLAND_TAG)), T(x.id), T(x.displayName), T(x.baseUrl), T(x.mode), U32(x.keyVersion), U64(x.at));
  }

  lemma ManifestParts(x: Signed)
    requires x.Island? && SigningBytes(x).Some?
    ensures Parts(x) == [T(Lit(ISLAND_TAG)), T(x.id), T(x.displayName), T(x.baseUrl), T(x.mode), U32(x.keyVersion), U64(x.at)]
    ensures Fits(T(Lit(ISLAND_TAG))) && Fits(T(x.id)) && Fits(T(x.displayName)) && Fits(T(x.baseUrl)) && Fits(T(x.mode))
    ensures Fits(U32(x.keyVersion)) && Fits(U64(x.at))
  {
    hide Utf8, Lit, Frame, Fits;
    var ps := Parts(x);
    assert ps == [T(Lit(ISLAND_TAG)), T(x.id), T(x.displayName), T(x.baseUrl), T(x.mode), U32(x.keyVersion), U64(x.at)];
    assert Fits(ps[0]) && Fits(ps[1]) && Fits(ps[2]) && Fits(ps[3]) && Fits(ps[4]) && Fits(ps[5]) && Fits(ps[6]);
  }

  lemma FrameOfSeven(a: Part, b: Part, c: Part, d: Part, e: Part, f: Part, g: Part)
    requires Fits(a) && Fits(b) && Fits(c) && Fits(d) && Fits(e) && Fits(f) && Fits(g)
    ensures AllFit([a, b, c, d, e, f, g])
    ensures Frame([a, b, c, d, e, f, g]) == Pack(a) + Pack(b) + Pack(c) + Pack(d) + Pack(e) + Pack(f) + Pack(g)
  {
    assert Frame([]) == [];
    hide Frame, Pack, Fits, AllFit;
    FrameOf(g, []);
    assert [g] + [] == [g] && Pack(g) + [] == Pack(g);
    FrameOfThree(d, e, f, [g]);
    assert [d, e, f] + [g] == [d, e, f, g];
    FrameOfThree(a, b, c, [d, e, f, g]);
    JoinThree([d, e, f, g], a, b, c);
    RegroupFour(Pack(a) + Pack(b) + Pack(c), Pack(d), Pack(e), Pack(f), Pack(g));
  }

  lemma RegroupFour(x: seq<Byte>, u: seq<Byte>, v: seq<Byte>, w: seq<Byte>, y: seq<Byte>)
    ensures x + (u + v + w + y) == x + u + v + w + y
  {
  }

  /** A message: tag, raw key, channel and client message id, then the stamp in eight bytes, then the body and what it
      replies to, each but the stamp behind its length. */
  lemma MessageLayout(x: Signed)
    requires x.Msg? && SigningBytes(x).Some?
    ensures var tag, channel, cmid := Utf8(Lit("aikochat:msg:v1:EdDSA")), Utf8(x.channel), Utf8(x.clientMsgId);
            var body, reply := Utf8(x.body), Utf8(if x.replyTo.Some? then x.replyTo.value else []);
            && |tag| < U32_SIZE && |x.key| < U32_SIZE && |channel| < U32_SIZE && |cmid| < U32_SIZE && x.at >= 0
            && |body| < U32_SIZE && |reply| < U32_SIZE
            && SigningBytes(x).value == Prefixed(tag) + Prefixed(x.key) + Prefixed(channel) + Prefixed(cmid)
                                        + BigEndian(x.at, 8) + Prefixed(body) + Prefixed(reply)
  {
    hide Utf8, BigEndian, Lit, Frame;
    MessageParts(x);
    hide Parts, Fields, Tag, Texts, AllFit;
    FrameOfSeven(T(Lit(MSG_TAG)), Blob(x.key), T(x.channel), T(x.clientMsgId), U64(x.at), T(x.body), T(OrEmpty(x.replyTo)));
  }

  lemma MessageParts(x: Signed)
    requires x.Msg? && SigningBytes(x).Some?
    ensures Parts(x) == [T(Lit(MSG_TAG)), Blob(x.key), T(x.channel), T(x.clientMsgId), U64(x.at), T(x.body), T(OrEmpty(x.replyTo))]
    ensures Fits(T(Lit(MSG_TAG))) && Fits(Blob(x.key)) && Fits(T(x.channel)) && Fits(T(x.clientMsgId)) && Fits(U64(x.at))
    ensures Fits(T(x.body)) && Fits(T(OrEmpty(x.replyTo)))
  {
    hide Utf8, Lit, Frame, Fits;
    var ps := Parts(x);
    assert ps == [T(Lit(MSG_TAG)), Blob(x.key), T(x.channel), T(x.clientMsgId), U64(x.at), T(x.body), T(OrEmpty(x.replyTo))];
    assert Fits(ps[0]) && Fits(ps[1]) && Fits(ps[2]) && Fits(ps[3]) && Fits(ps[4]) && Fits(ps[5]) && Fits(ps[6]);
  }

  /** A reaction: the same first five fields under its own tag, then target, emoji and action. */
  lemma ReactionLayout(x: Signed)
    requires x.React? && SigningBytes(x).Some?
    ensures var tag, channel, cmid := Utf8(Lit("aikochat:react:v1:EdDSA")), Utf8(x.channel), Utf8(x.clientMsgId);
            var target, emoji, action := Utf8(x.target), Utf8(x.emoji), Utf8(x.action);
            && |tag| < U32_SIZE && |x.key| < U32_SIZE && |channel| < U32_SIZE && |cmid| < U32_SIZE && x.at >= 0
            && |target| < U32_SIZE && |emoji| < U32_SIZE && |action| < U32_SIZE
            && SigningBytes(x).value == Prefixed(tag) + Prefixed(x.key) + Prefixed(channel) + Prefixed(cmid)
                                        + BigEndian(x.at, 8) + Prefixed(target) + Prefixed(emoji) + Prefixed(action)
  {
    hide Utf8, BigEndian, Lit, Frame;
    ReactionParts(x);
    hide Parts, Fields, Tag, Texts, AllFit;
    FrameOfEight(T(Lit(REACT_TAG)), Blob(x.key), T(x.channel), T(x.clientMsgId), U64(x.at), T(x.target), T(x.emoji), T(x.action));
  }

  lemma ReactionParts(x: Signed)
    requires x.React? && SigningBytes(x).Some?
    ensures Parts(x) == [T(Lit(REACT_TAG)), Blob(x.key), T(x.channel), T(x.clientMsgId), U64(x.at), T(x.target), T(x.emoji), T(x.action)]
    ensures Fits(T(Lit(REACT_TAG))) && Fits(Blob(x.key)) && Fits(T(x.channel)) && Fits(T(x.clientMsgId)) && Fits(U64(x.at))
    ensures Fits(T(x.target)) && Fits(T(x.emoji)) && Fits(T(x.action))
  {
    hide Utf8, Lit, Frame, Fits;
    var ps := Parts(x);
    assert ps == [T(Lit(REACT_TAG)), Blob(x.key), T(x.channel), T(x.clientMsgId), U64(x.at), T(x.target), T(x.emoji), T(x.action)];
    assert Fits(ps[0]) && Fits(ps[1]) && Fits(ps[2]) && Fits(ps[3]) && Fits(ps[4]) && Fits(ps[5]) && Fits(ps[6]) && Fits(ps[7]);
  }

  lemma FrameOfEight(a: Part, b: Part, c: Part, d: Part, e: Part, f: Part, g: Part, h: Part)
    requires Fits(a) && Fits(b) && Fits(c) && Fits(d) && Fits(e) && Fits(f) && Fits(g) && Fits(h)
    ensures AllFit([a, b, c, d, e, f, g, h])
    ensures Frame([a, b, c, d, e, f, g, h])
            == Pack(a) + Pack(b) + Pack(c) + Pack(d) + Pack(e) + Pack(f) + Pack(g) + Pack(h)
  {
    hide Frame, Pack, Fits, AllFit;
    FrameOfSeven(b, c, d, e, f, g, h);
    FrameOf(a, [b, c, d, e, f, g, h]);
    assert [a] + [b, c, d, e, f, g, h] == [a, b, c, d, e, f, g, h];
    var u, v := Pack(b) + Pack(c) + Pack(d) + Pack(e), Pack(a) + Pack(b) + Pack(c) + Pack(d) + Pack(e);
    RegroupFour(Pack(a), Pack(b), Pack(c), Pack(d), Pack(e));
    assert Pack(a) + u == v;
    RegroupFour(Pack(a), u, Pack(f), Pack(g), Pack(h));
  }

  /** Every text encodes and every field fits its width. */
  predicate Signable(x: Signed) {
    match x
    case Msg(k, ch, c, at, body, reply) =>
      && Short(ch) && Short(c) && Short(body) && (reply.Some? ==> Short(reply.value)) && |k| < U32_SIZE && 0 <= at < U64_SIZE
    case React(k, ch, c, at, target, emoji, action) =>
      Short(ch) && Short(c) && Short(target) && Short(emoji) && Short(action) && |k| < U32_SIZE && 0 <= at < U64_SIZE
    case Actuate(k, robot, command, n, at) =>
      Short(robot) && Short(command) && |k| < U32_SIZE && 0 <= n < U64_SIZE && 0 <= at < U64_SIZE
    case Island(id, name, url, mode, version, at) =>
      Short(id) && Short(name) && Short(url) && Short(mode) && 0 <= version < U32_SIZE && 0 <= at < U64_SIZE
  }

  predicate Short(s: Str) { Encodable(s) && |Utf8(s)| < U32_SIZE }

  lemma AllFitSplit(ps: seq<Part>)
    ensures AllFit(ps) <==> ps == [] || (Fits(ps[0]) && AllFit(ps[1..]))
  {
    hide Fits;
    if ps != [] && Fits(ps[0]) && AllFit(ps[1..]) {
      assert forall i :: 0 < i < |ps| ==> ps[i] == ps[1..][i - 1];
    }
  }

  lemma AllFitFive(a: Part, b: Part, c: Part, d: Part, e: Part)
    ensures AllFit([a, b, c, d, e]) <==> Fits(a) && Fits(b) && Fits(c) && Fits(d) && Fits(e)
  {
    hide Fits;
    var ps := [a, b, c, d, e];
    if AllFit(ps) {
      assert Fits(ps[0]) && Fits(ps[1]) && Fits(ps[2]) && Fits(ps[3]) && Fits(ps[4]);
    }
  }

  lemma AllFitSix(a: Part, b: Part, c: Part, d: Part, e: Part, f: Part)
    ensures AllFit([a, b, c, d, e, f]) <==> Fits(a) && AllFit([b, c, d, e, f])
  {
    AllFitSplit([a, b, c, d, e, f]);
    assert [a, b, c, d, e, f][1..] == [b, c, d, e, f];
  }

  lemma AllFitSeven(a: Part, b: Part, c: Part, d: Part, e: Part, f: Part, g: Part)
    ensures AllFit([a, b, c, d, e, f, g]) <==> Fits(a) && AllFit([b, c, d, e, f, g])
  {
    AllFitSplit([a, b, c, d, e, f, g]);
    assert [a, b, c, d, e, f, g][1..] == [b, c, d, e, f, g];
  }

  lemma FieldsFit(x: Signed)
    ensures Texts(x) && AllFit(Fields(x)) <==> Signable(x)
  {
    assert Utf8([]) == [];
    assert Encodable([]);
    hide Utf8, AllFit, Encodable;
    match x
    case Msg(k, ch, c, at, body, reply) =>
      AllFitSix(Blob(k), T(ch), T(c), U64(at), T(body), T(OrEmpty(reply)));
      AllFitFive(T(ch), T(c), U64(at), T(body), T(OrEmpty(reply)));
    case React(k, ch, c, at, target, emoji, action) =>
      AllFitSeven(Blob(k), T(ch), T(c), U64(at), T(target), T(emoji), T(action));
      AllFitSix(T(ch), T(c), U64(at), T(target), T(emoji), T(action));
      AllFitFive(T(c), U64(at), T(target), T(emoji), T(action));
    case Actuate(k, robot, command, n, at) =>
      AllFitFive(Blob(k), T(robot), T(command), U64(n), U64(at));
    case Island(id, name, url, mode, version, at) =>
      AllFitSix(T(id), T(name), T(url), T(mode), U32(version), U64(at));
      AllFitFive(T(name), T(url), T(mode), U32(version), U64(at));
  }

  /** There are bytes to sign exactly when every text encodes and every field fits its width. */
  lemma SignableIff(x: Signed)
    ensures SigningBytes(x).Some? <==> Signable(x)
  {
    FieldsFit(x);
    TagFits(x);
    AllFitSplit(Parts(x));
    assert Parts(x)[1..] == Fields(x);
    hide Signable, Texts, AllFit, Fits, Frame, Fields, Tag;
  }

  lemma TagFits(x: Signed)
    ensures Fits(T(Tag(x)))
  {
    hide Utf8, Lit;
    assert |Tag(x)| < 32;
  }
}
