/** The canonical key of a direct-message channel (`dm_service.py`): a printer and a parser that undo each other. */
module DmKey {
  import opened Text
  import opened Store

  const DM_CHANNEL_PREFIX := "dm:"
  const ID_LENGTH := 26

  /** `is_dm_channel_name`. */
  predicate IsDmName(aikoChannel: string) { DM_CHANNEL_PREFIX <= aikoChannel }

  /** `_canonical_aiko_channel`: the pair in sorted order. */
  function CanonicalKey(a: UserId, b: UserId): (key: string) {
    if LexLess(b, a) then DM_CHANNEL_PREFIX + b + ":" + a else DM_CHANNEL_PREFIX + a + ":" + b
  }

  /** `canonical_peer_ids`: the ids of the key other than `me`, or None when the key is malformed. */
  function PeerIds(aikoChannel: string, me: UserId): (peers: Option<seq<UserId>>) {
    if !IsDmName(aikoChannel) then None else
      var ids := Split(aikoChannel[|DM_CHANNEL_PREFIX|..], ':');
      if |ids| != 2 || |ids[0]| != ID_LENGTH || |ids[1]| != ID_LENGTH then None
      else
        var rest := (if ids[0] != me then {ids[0]} else {}) + (if ids[1] != me then {ids[1]} else {});
        Some(SortedPair(ids[0], ids[1], rest))
  }

  /** `sorted(rest)` where `rest` holds at most `x` and `y`. */
  function SortedPair(x: UserId, y: UserId, rest: set<UserId>): (s: seq<UserId>) {
    if x in rest && y in rest && x != y then (if LexLess(y, x) then [y, x] else [x, y])
    else if x in rest then [x]
    else if y in rest then [y]
    else []
  }

  /** The shape of a user id that the key relies on. */
  predicate UlidText(id: UserId) { |id| == ID_LENGTH && ':' !in id }

  lemma {:induction false} SplitColonFree(s: string)
    requires ':' !in s
    ensures Split(s, ':') == [s]
  {
    if s != [] {
      SplitColonFree(s[1..]);
      assert s == [s[0]] + s[1..];
    }
  }

  lemma KeyParts(x: UserId, y: UserId)
    requires UlidText(x) && UlidText(y)
    ensures var key := DM_CHANNEL_PREFIX + x + ":" + y;
            IsDmName(key) && Split(key[|DM_CHANNEL_PREFIX|..], ':') == [x, y]
  {
    var key := DM_CHANNEL_PREFIX + x + ":" + y;
    assert key[|DM_CHANNEL_PREFIX|..] == x + [':'] + y;
    SplitHead(x, ':', y);
    SplitColonFree(y);
  }

  /** The key forgets who asked. */
  lemma KeySymmetric(a: UserId, b: UserId)
    ensures CanonicalKey(a, b) == CanonicalKey(b, a)
  {
    LexTrichotomy(a, b);
  }

  /** Parsing a printed key gives back exactly the other party, and nobody for notes-to-self. */
  lemma PeerRoundTrip(me: UserId, other: UserId)
    requires UlidText(me) && UlidText(other)
    ensures PeerIds(CanonicalKey(me, other), me) == Some(if me == other then [] else [other])
  {
    KeyParts(me, other);
    KeyParts(other, me);
  }

  /** Keys of two unordered pairs agree only when the pairs do. */
  lemma KeyInjective(a: UserId, b: UserId, c: UserId, d: UserId)
    requires UlidText(a) && UlidText(b) && UlidText(c) && UlidText(d)
    ensures CanonicalKey(a, b) == CanonicalKey(c, d) <==> (a == c && b == d) || (a == d && b == c)
  {
    KeySymmetric(a, b);
    KeyParts(a, b);
    KeyParts(b, a);
    KeyParts(c, d);
    KeyParts(d, c);
    var ab := if LexLess(b, a) then [b, a] else [a, b];
    var cd := if LexLess(d, c) then [d, c] else [c, d];
    if CanonicalKey(a, b) == CanonicalKey(c, d) {
      assert ab == cd;
      assert ab[0] == cd[0] && ab[1] == cd[1];
    }
  }

  lemma {:induction false} SplitRejoins(s: string, sep: char)
    ensures forall i :: 0 <= i < |Split(s, sep)| ==> sep !in Split(s, sep)[i]
    ensures |Split(s, sep)| == 2 ==> s == Split(s, sep)[0] + [sep] + Split(s, sep)[1]
    ensures |Split(s, sep)| == 1 ==> s == Split(s, sep)[0]
  {
    if s != [] {
      SplitRejoins(s[1..], sep);
      var rest := Split(s[1..], sep);
      assert s == [s[0]] + s[1..];
      if s[0] == sep {
        assert Split(s, sep) == [""] + rest;
      } else {
        assert Split(s, sep) == [[s[0]] + rest[0]] + rest[1..];
        hide Split;
        assert |rest| == 2 ==> s == [s[0]] + (rest[0] + [sep] + rest[1]);
      }
      hide Split;
    }
  }

  /** The parser accepts exactly the well-formed keys: two colon-free 26-character ids after the prefix. */
  lemma ParserAccepts(key: string, me: UserId)
    ensures PeerIds(key, me).Some? <==>
            exists x, y :: UlidText(x) && UlidText(y) && key == DM_CHANNEL_PREFIX + x + ":" + y
    ensures PeerIds(key, me).Some? ==> forall p :: p in PeerIds(key, me).value ==> p != me && UlidText(p)
  {
    if PeerIds(key, me).Some? {
      var body := key[|DM_CHANNEL_PREFIX|..];
      SplitRejoins(body, ':');
      var ids := Split(body, ':');
      assert key == DM_CHANNEL_PREFIX + body;
      assert body == ids[0] + [':'] + ids[1];
      assert key == DM_CHANNEL_PREFIX + ids[0] + ":" + ids[1];
      assert UlidText(ids[0]) && UlidText(ids[1]);
    }
    if x, y :| UlidText(x) && UlidText(y) && key == DM_CHANNEL_PREFIX + x + ":" + y {
      KeyParts(x, y);
    }
  }

  /** The key is the prefix and the two ids in ascending order, a colon between. */
  lemma KeySpelled(a: UserId, b: UserId)
    ensures exists x, y :: CanonicalKey(a, b) == "dm:" + x + ":" + y && ((x == a && y == b) || (x == b && y == a)) && !LexLess(y, x)
  {
    LexTrichotomy(a, b);
    hide LexLess;
    if LexLess(b, a) {
      assert CanonicalKey(a, b) == "dm:" + b + ":" + a;
    } else {
      assert CanonicalKey(a, b) == "dm:" + a + ":" + b;
    }
  }
}
