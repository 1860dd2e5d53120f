/** The public directory (`communities_service.py`): keyset pages chained by a cursor that carries its sort mode. */
module Directory {
  import opened Store
  import opened Text
  import opened Ordering

  const PAGE_SIZE := 20
  const SEP: char := '\U{1F}'

  datatype Entry = Entry(id: CommunityId, community: Community)

  datatype SortMode = ByMembers | ByName

  datatype Error =
    | InvalidCursor
    | ValueError           // raised by `int()` and not caught
    | OverflowError        // raised by SQLite's driver when it binds the count, and not caught

  // ---- the cursor text, before base64

  function ModeName(sort: SortMode): (s: string)
    ensures SEP !in s
  {
    match sort
    case ByMembers => "members"
    case ByName => "name"
  }

  function EncodeCursor(sort: SortMode, key: string, id: string): (raw: string) {
    ModeName(sort) + [SEP] + key + [SEP] + id
  }

  /** `s.split(sep, 1)`. */
  function SplitFirst(s: string, sep: char): (r: Option<(string, string)>)
    ensures r.None? <==> sep !in s
    ensures r.Some? ==> s == r.value.0 + [sep] + r.value.1 && sep !in r.value.0
  {
    if s == [] then None
    else if s[0] == sep then
      assert s == [] + [sep] + s[1..];
      Some(([], s[1..]))
    else
      var r := SplitFirst(s[1..], sep);
      assert s == [s[0]] + s[1..];
      if r.None? then None else Some(([s[0]] + r.value.0, r.value.1))
  }

  /** `s.rsplit(sep, 1)`. */
  function SplitLast(s: string, sep: char): (r: Option<(string, string)>)
    ensures r.None? <==> sep !in s
    ensures r.Some? ==> s == r.value.0 + [sep] + r.value.1 && sep !in r.value.1
  {
    if s == [] then None else
      var k := |s| - 1;
      assert s == s[..k] + [s[k]];
      if s[k] == sep then Some((s[..k], []))
      else
        var r := SplitLast(s[..k], sep);
        if r.None? then None else Some((r.value.0, r.value.1 + [s[k]]))
  }

  lemma FirstUnique(a: string, b: string, a': string, b': string, sep: char)
    requires a + [sep] + b == a' + [sep] + b' && sep !in a && sep !in a'
    ensures a == a' && b == b'
  {
    var s, s' := a + [sep] + b, a' + [sep] + b';
    assert s[|a|] == sep && s'[|a'|] == sep;
    assert a == s[..|a|] && a' == s'[..|a'|];
    assert b == s[|a| + 1..] && b' == s'[|a'| + 1..];
  }

  lemma LastUnique(a: string, b: string, a': string, b': string, sep: char)
    requires a + [sep] + b == a' + [sep] + b' && sep !in b && sep !in b'
    ensures a == a' && b == b'
  {
    var s, s' := a + [sep] + b, a' + [sep] + b';
    assert s[|a|] == sep && s'[|a'|] == sep;
    assert a == s[..|a|] && a' == s'[..|a'|];
    assert b == s[|a| + 1..] && b' == s'[|a'| + 1..];
  }

  /** `_decode_cursor` after base64: the sort key and the last id. */
  function DecodeCursor(raw: string, expected: SortMode): (r: Result<(string, string), Error>) {
    var head := SplitFirst(raw, SEP);
    if head.None? then Err(InvalidCursor) else
      var tail := SplitLast(head.value.1, SEP);
      if tail.None? || head.value.0 != ModeName(expected) then Err(InvalidCursor) else Ok(tail.value)
  }

  /** CURSOR ROUND TRIP. For every key, separators included, decoding undoes encoding under the same mode and refuses
      the other mode; and only encodings decode. */
  lemma CursorRoundTrip(sort: SortMode, key: string, id: string, expected: SortMode)
    requires SEP !in id
    ensures DecodeCursor(EncodeCursor(sort, key, id), expected) == if expected == sort then Ok((key, id)) else Err(InvalidCursor)
  {
    var raw := EncodeCursor(sort, key, id);
    var rest := key + [SEP] + id;
    assert raw == ModeName(sort) + [SEP] + rest;
    assert raw[|ModeName(sort)|] == SEP && rest[|key|] == SEP;
    var head := SplitFirst(raw, SEP).value;
    FirstUnique(ModeName(sort), rest, head.0, head.1, SEP);
    var tail := SplitLast(rest, SEP).value;
    LastUnique(key, id, tail.0, tail.1, SEP);
    assert ModeName(ByMembers)[0] != ModeName(ByName)[0];
  }

  lemma OnlyEncodingsDecode(raw: string, expected: SortMode)
    requires DecodeCursor(raw, expected).Ok?
    ensures var (key, id) := DecodeCursor(raw, expected).value; raw == EncodeCursor(expected, key, id) && SEP !in id
  {
    var head := SplitFirst(raw, SEP).value;
    var tail := SplitLast(head.1, SEP).value;
    assert raw == head.0 + [SEP] + (tail.0 + [SEP] + tail.1);
  }

  // ---- integers as text

  /** Python's view of characters: `isdigit` admits superscripts, for instance, that `int` does not read. */
  datatype Unicode = Unicode(isDigit: char -> bool, decimal: char -> Option<nat>)

  ghost predicate Lawful(u: Unicode) {
    && (forall c :: u.decimal(c).Some? ==> u.isDigit(c) && u.decimal(c).value < 10)
    && (forall c :: '0' <= c <= '9' ==> u.decimal(c) == Some(c as int - 48))
    && !u.isDigit('-')
  }

  function Digit(d: nat): (c: char)
    requires d < 10
    ensures c != '-'
  {
    (48 + d) as char
  }

  lemma DigitReads(u: Unicode, d: nat)
    requires Lawful(u) && d < 10
    ensures u.decimal(Digit(d)) == Some(d) && u.isDigit(Digit(d))
  {
  }

  function PrintNat(n: nat): (s: string)
    ensures |s| > 0 && s[0] != '-'
  {
    (if n < 10 then "" else PrintNat(n / 10)) + [Digit(n % 10)]
  }

  function PrintInt(n: int): (s: string) { if n < 0 then "-" + PrintNat(-n) else PrintNat(n) }

  predicate AllDecimal(u: Unicode, s: string) { forall i :: 0 <= i < |s| ==> u.decimal(s[i]).Some? }

  function ReadNat(u: Unicode, s: string): (n: nat)
    requires AllDecimal(u, s)
  {
    if s == [] then 0 else ReadNat(u, s[..|s| - 1]) * 10 + u.decimal(s[|s| - 1]).value
  }

  /** `s.lstrip("-")`. */
  function StripDashes(s: string): (r: string)
    ensures |r| <= |s| && r == s[|s| - |r|..]
    ensures r == [] || r[0] != '-'
  {
    if s != [] && s[0] == '-' then StripDashes(s[1..]) else s
  }

  /** CPython 3.12 converts no decimal text of more digits to an integer. */
  const MAX_STR_DIGITS := 4300

  /** SQLite integers have 64 bits. */
  const INT64_SIZE := 0x8000_0000_0000_0000

  predicate Binds(n: int) { -INT64_SIZE <= n < INT64_SIZE }

  /** The gate `sort_key.lstrip("-").isdigit()` and then `int(sort_key)`. */
  function ParseKey(u: Unicode, key: string): (r: Result<int, Error>) {
    var body := StripDashes(key);
    if body == [] || !AllDigits(u, body) then Err(InvalidCursor)
    else if |key| - |body| > 1 || !AllDecimal(u, body) || |body| > MAX_STR_DIGITS then Err(ValueError)
    else if |key| == |body| then Ok(ReadNat(u, body))
    else Ok(-(ReadNat(u, body) as int))
  }

  predicate AllDigits(u: Unicode, s: string) { forall i :: 0 <= i < |s| ==> u.isDigit(s[i]) }

  lemma ReadSnoc(u: Unicode, s: string, c: char)
    requires AllDecimal(u, s) && AllDigits(u, s) && u.decimal(c).Some? && u.isDigit(c)
    ensures AllDecimal(u, s + [c]) && AllDigits(u, s + [c])
    ensures ReadNat(u, s + [c]) == ReadNat(u, s) * 10 + u.decimal(c).value
  {
    var t := s + [c];
    assert t[..|t| - 1] == s && t[|t| - 1] == c;
  }

  lemma PrintUnfolds(n: nat)
    ensures PrintNat(n) == (if n < 10 then "" else PrintNat(n / 10)) + [Digit(n % 10)]
  {
  }

  lemma ReadOfEmpty(u: Unicode)
    ensures AllDecimal(u, "") && AllDigits(u, "") && ReadNat(u, "") == 0
  {
  }

  lemma {:induction false} ReadOfPrint(u: Unicode, n: nat)
    requires Lawful(u)
    ensures AllDecimal(u, PrintNat(n)) && AllDigits(u, PrintNat(n)) && ReadNat(u, PrintNat(n)) == n
  {
    hide Lawful, Digit, PrintNat, ReadNat, AllDecimal, AllDigits;
    DigitReads(u, n % 10);
    PrintUnfolds(n);
    if n < 10 {
      ReadOfEmpty(u);
      ReadSnoc(u, "", Digit(n % 10));
    } else {
      ReadOfPrint(u, n / 10);
      ReadSnoc(u, PrintNat(n / 10), Digit(n % 10));
    }
  }

  lemma StripOneDash(digits: string)
    requires digits != [] && digits[0] != '-'
    ensures StripDashes(digits) == digits && StripDashes("-" + digits) == digits
  {
    assert ("-" + digits)[0] == '-' && ("-" + digits)[1..] == digits;
  }

  lemma ParseSigned(u: Unicode, digits: string)
    requires digits != [] && digits[0] != '-' && AllDigits(u, digits) && AllDecimal(u, digits) && |digits| <= MAX_STR_DIGITS
    ensures ParseKey(u, digits) == Ok(ReadNat(u, digits))
    ensures ParseKey(u, "-" + digits) == Ok(-(ReadNat(u, digits) as int))
  {
    StripOneDash(digits);
    hide StripDashes, AllDigits, AllDecimal, ReadNat;
  }

  function Pow10(k: nat): (p: nat)
    ensures p >= 1
  {
    if k == 0 then 1 else 10 * Pow10(k - 1)
  }

  lemma {:induction false} PrintLength(n: nat, k: nat)
    requires k > 0 && n < Pow10(k)
    ensures |PrintNat(n)| <= k
    decreases k
  {
    if n >= 10 {
      assert k > 1 by {
        assert Pow10(1) == 10 * Pow10(0);
      }
      PrintLength(n / 10, k - 1);
    }
  }

  /** Every stored count prints in at most twenty digits. */
  lemma CountsPrintShort(n: nat)
    requires n <= INT64_SIZE
    ensures |PrintNat(n)| <= 20
  {
    assert Pow10(20) > INT64_SIZE by {
      assert Pow10(4) == 10000;
      assert Pow10(8) == 10000 * Pow10(4);
      assert Pow10(12) == 10000 * Pow10(8);
      assert Pow10(16) == 10000 * Pow10(12);
      assert Pow10(20) == 10000 * Pow10(16);
    }
    PrintLength(n, 20);
  }

  /** Every count the database holds, and the next one, survives printing and parsing. */
  lemma ParseOfPrint(u: Unicode, n: int)
    requires Lawful(u) && -INT64_SIZE <= n <= INT64_SIZE
    ensures ParseKey(u, PrintInt(n)) == Ok(n)
  {
    hide Lawful, PrintNat, ReadNat, ParseKey, AllDecimal, AllDigits;
    var m := if n < 0 then -n else n;
    CountsPrintShort(m);
    ReadOfPrint(u, m);
    ParseSigned(u, PrintNat(m));
  }

  lemma LongTextParses(u: Unicode, digits: string)
    requires |digits| > MAX_STR_DIGITS && digits[0] != '-' && AllDigits(u, digits)
    ensures ParseKey(u, digits) == Err(ValueError)
  {
    hide StripDashes, AllDigits, AllDecimal, ReadNat;
    StripOneDash(digits);
  }

  // ---- one page

  /** Strictly earlier in the listing. */
  predicate Before(sort: SortMode, a: Entry, b: Entry) {
    match sort
    case ByMembers =>
      a.community.memberCount > b.community.memberCount
      || (a.community.memberCount == b.community.memberCount && LexLess(a.id, b.id))
    case ByName =>
      LexLess(a.community.name, b.community.name) || (a.community.name == b.community.name && LexLess(a.id, b.id))
  }

  function Le(sort: SortMode): (le: (Entry, Entry) -> bool) { (a, b) => !Before(sort, b, a) }

  /** A page starts after a decoded cursor, or at the top. */
  datatype Start = Top | AfterCount(count: int, id: CommunityId) | AfterName(name: string, id: CommunityId)

  predicate Past(start: Start, x: Entry) {
    match start
    case Top => true
    case AfterCount(n, id) => x.community.memberCount < n || (x.community.memberCount == n && LexLess(id, x.id))
    case AfterName(s, id) => LexLess(s, x.community.name) || (x.community.name == s && LexLess(id, x.id))
  }

  function StartAt(u: Unicode, sort: SortMode, cursor: Option<string>): (r: Result<Start, Error>) {
    if cursor.None? || cursor.value == "" then Ok(Top) else
      var d := DecodeCursor(cursor.value, sort);
      if d.Err? then Err(d.error)
      else if sort.ByName? then Ok(AfterName(d.value.0, d.value.1))
      else
        var n := ParseKey(u, d.value.0);
        if n.Err? then Err(n.error)
        else if !Binds(n.value) then Err(OverflowError)
        else Ok(AfterCount(n.value, d.value.1))
  }

  predicate Listed(wanted: Entry -> bool, x: Entry) {
    x.community.visibility.Public? && !x.community.takenDown && wanted(x)
  }

  /** What ORDER BY makes of the rows past `start`. */
  function Ordered(table: seq<Entry>, wanted: Entry -> bool, sort: SortMode, start: Start): (r: seq<Entry>) {
    Sort(Le(sort), Filter(x => Listed(wanted, x) && Past(start, x), table))
  }

  function KeyText(sort: SortMode, x: Entry): (s: string) {
    if sort.ByMembers? then PrintInt(x.community.memberCount) else x.community.name
  }

  function CursorOf(sort: SortMode, x: Entry): (c: string) { EncodeCursor(sort, KeyText(sort, x), x.id) }

  /** `discover`: `wanted` stands for the name search and the category filter. */
  function Discover(u: Unicode, table: seq<Entry>, wanted: Entry -> bool, sort: SortMode, cursor: Option<string>)
    : (r: Result<(seq<Entry>, Option<string>), Error>)
  {
    var start := StartAt(u, sort, cursor);
    if start.Err? then Err(start.error) else
      var rows := Take(Ordered(table, wanted, sort, start.value), PAGE_SIZE + 1);
      var page := Take(rows, PAGE_SIZE);
      Ok((page, if |rows| > PAGE_SIZE then Some(CursorOf(sort, page[|page| - 1])) else None))
  }

  // ---- the listing order

  lemma LexFacts(a: string, b: string, c: string)
    ensures LexLess(a, b) || a == b || LexLess(b, a)
    ensures !(LexLess(a, b) && LexLess(b, a)) && !LexLess(a, a)
    ensures LexLess(a, b) && LexLess(b, c) ==> LexLess(a, c)
  {
    hide LexLess;
    LexTrichotomy(a, b);
    LexTrichotomy(a, a);
    if LexLess(a, b) && LexLess(b, c) {
      LexTransitive(a, b, c);
    }
  }

  lemma BeforeIsTotal(sort: SortMode, a: Entry, b: Entry, c: Entry)
    ensures !(Before(sort, a, b) && Before(sort, b, a))
    ensures Before(sort, a, b) || Before(sort, b, a) || a.id == b.id
    ensures !Before(sort, b, a) && !Before(sort, c, b) ==> !Before(sort, c, a)
  {
    hide LexLess;
    LexFacts(a.id, b.id, c.id);
    LexFacts(c.id, a.id, b.id);
    LexFacts(b.id, c.id, a.id);
    LexFacts(c.id, b.id, a.id);
    LexFacts(a.community.name, b.community.name, c.community.name);
    LexFacts(c.community.name, a.community.name, b.community.name);
    LexFacts(b.community.name, c.community.name, a.community.name);
    LexFacts(c.community.name, b.community.name, a.community.name);
  }

  lemma LeIsPreorder(sort: SortMode)
    ensures TotalPreorder(Le(sort))
  {
    hide Before;
    forall a, b ensures Le(sort)(a, b) || Le(sort)(b, a) {
      BeforeIsTotal(sort, a, b, b);
    }
    forall a, b, c | Le(sort)(a, b) && Le(sort)(b, c) ensures Le(sort)(a, c) {
      BeforeIsTotal(sort, a, b, c);
    }
  }

  ghost predicate DistinctIds(s: seq<Entry>) { forall i, j :: 0 <= i < j < |s| ==> s[i].id != s[j].id }

  /** The table's columns: ids are the primary key and, being ULIDs, free of the separator; counts are integers of
      the database. */
  ghost predicate Tidy(table: seq<Entry>) {
    DistinctIds(table) && forall i :: 0 <= i < |table| ==> SEP !in table[i].id && Binds(table[i].community.memberCount)
  }

  lemma {:induction false} FilterUnique(p: Entry -> bool, s: seq<Entry>)
    requires DistinctIds(s)
    ensures DistinctIds(Filter(p, s))
  {
    if s != [] {
      FilterUnique(p, s[1..]);
      var rest := Filter(p, s[1..]);
      forall i | 0 <= i < |rest| ensures rest[i].id != s[0].id {
        assert rest[i] in s[1..];
        var j :| 0 <= j < |s[1..]| && s[1..][j] == rest[i];
        assert s[j + 1] == rest[i];
      }
    }
  }

  lemma {:induction false} InsertUnique(le: (Entry, Entry) -> bool, x: Entry, s: seq<Entry>)
    requires DistinctIds(s) && forall i :: 0 <= i < |s| ==> s[i].id != x.id
    ensures DistinctIds(Insert(le, x, s))
  {
    if s == [] || le(x, s[0]) {
    } else {
      InsertUnique(le, x, s[1..]);
      var rest := Insert(le, x, s[1..]);
      forall i | 0 <= i < |rest| ensures rest[i].id != s[0].id {
        assert rest[i] in multiset(rest);
        assert rest[i] == x || rest[i] in s[1..];
      }
    }
  }

  lemma {:induction false} SortUnique(le: (Entry, Entry) -> bool, s: seq<Entry>)
    requires DistinctIds(s)
    ensures DistinctIds(Sort(le, s))
  {
    if s != [] {
      SortUnique(le, s[1..]);
      SortMembers(le, s[1..]);
      var rest := Sort(le, s[1..]);
      forall i | 0 <= i < |rest| ensures rest[i].id != s[0].id {
        assert rest[i] in s[1..];
        var j :| 0 <= j < |s[1..]| && s[1..][j] == rest[i];
        assert s[j + 1] == rest[i];
      }
      InsertUnique(le, s[0], rest);
    }
  }

  lemma UniqueIsDistinct(sort: SortMode, s: seq<Entry>)
    requires DistinctIds(s)
    ensures Distinct(Le(sort), s)
  {
    hide Before;
    forall i, j | 0 <= i < j < |s| ensures !(Le(sort)(s[i], s[j]) && Le(sort)(s[j], s[i])) {
      BeforeIsTotal(sort, s[i], s[j], s[j]);
    }
  }

  /** A page's rows before the cut: sorted, free of ties, and exactly the listed communities past the start. */
  lemma OrderedIs(table: seq<Entry>, wanted: Entry -> bool, sort: SortMode, start: Start)
    requires Tidy(table)
    ensures var r := Ordered(table, wanted, sort, start);
            && Sorted(Le(sort), r) && Distinct(Le(sort), r) && DistinctIds(r)
            && forall x :: x in r <==> x in table && Listed(wanted, x) && Past(start, x)
  {
    var p := x => Listed(wanted, x) && Past(start, x);
    var rows := Filter(p, table);
    LeIsPreorder(sort);
    FilterUnique(p, table);
    SortUnique(Le(sort), rows);
    SortSorted(Le(sort), rows);
    SortMembers(Le(sort), rows);
    UniqueIsDistinct(sort, Sort(Le(sort), rows));
  }

  /** A cursor names its entry's place in the order. */
  lemma CursorIsPlace(u: Unicode, sort: SortMode, e: Entry)
    requires Lawful(u) && SEP !in e.id && Binds(e.community.memberCount)
    ensures StartAt(u, sort, Some(CursorOf(sort, e))).Ok?
    ensures forall x :: Past(StartAt(u, sort, Some(CursorOf(sort, e))).value, x) <==> Before(sort, e, x)
  {
    hide LexLess, DecodeCursor, ParseKey, PrintInt, Lawful, EncodeCursor;
    CursorRoundTrip(sort, KeyText(sort, e), e.id, sort);
    ParseOfPrint(u, e.community.memberCount);
    CursorNotEmpty(sort, KeyText(sort, e), e.id);
  }

  lemma CursorNotEmpty(sort: SortMode, key: string, id: string)
    ensures EncodeCursor(sort, key, id) != ""
  {
    assert |EncodeCursor(sort, key, id)| == |ModeName(sort)| + |key| + |id| + 2;
  }

  /** The rows past the i-th entry of the listing are the listing from there on. */
  lemma RestOfListing(u: Unicode, table: seq<Entry>, wanted: Entry -> bool, sort: SortMode, i: nat)
    requires Lawful(u) && Tidy(table) && 0 < i <= |Ordered(table, wanted, sort, Top)|
    ensures var all := Ordered(table, wanted, sort, Top);
            var start := StartAt(u, sort, Some(CursorOf(sort, all[i - 1])));
            start.Ok? && Ordered(table, wanted, sort, start.value) == all[i..]
  {
    hide Ordered, StartAt, Past, Before, Tidy, CursorOf, LexLess;
    var all := Ordered(table, wanted, sort, Top);
    var e := all[i - 1];
    OrderedIs(table, wanted, sort, Top);
    TidyIds(table, e);
    CursorIsPlace(u, sort, e);
    var start := StartAt(u, sort, Some(CursorOf(sort, e))).value;
    OrderedIs(table, wanted, sort, start);
    var rest := Ordered(table, wanted, sort, start);
    forall x ensures x in rest <==> x in all[i..] {
      TopPast(x);
      PastIsSuffix(sort, all, i, x);
    }
    LeIsPreorder(sort);
    SortedUnique(Le(sort), rest, all[i..]);
  }

  lemma TopPast(x: Entry)
    ensures Past(Top, x)
  {
  }

  lemma TidyIds(table: seq<Entry>, e: Entry)
    requires Tidy(table) && e in table
    ensures SEP !in e.id && Binds(e.community.memberCount)
  {
  }

  /** In a strictly sorted listing the later entries are the ones the i-th comes before. */
  lemma PastIsSuffix(sort: SortMode, all: seq<Entry>, i: nat, x: Entry)
    requires 0 < i <= |all| && Sorted(Le(sort), all) && Distinct(Le(sort), all)
    ensures x in all[i..] <==> x in all && Before(sort, all[i - 1], x)
  {
    hide Before;
    var e := all[i - 1];
    BeforeIsTotal(sort, e, e, e);
    if x in all[i..] {
      var j :| 0 <= j < |all[i..]| && all[i..][j] == x;
      assert all[i + j] == x && Le(sort)(e, x);
    }
    if x in all && Before(sort, e, x) {
      var j :| 0 <= j < |all| && all[j] == x;
      BeforeIsTotal(sort, e, x, x);
      assert j < i - 1 ==> Le(sort)(x, e);
      assert all[i..][j - i] == x;
    }
  }

  /** One page of the chain, from the entry the last page ended on. */
  lemma PageIs(u: Unicode, table: seq<Entry>, wanted: Entry -> bool, sort: SortMode, i: nat)
    requires Lawful(u) && Tidy(table) && i <= |Ordered(table, wanted, sort, Top)|
    ensures var all := Ordered(table, wanted, sort, Top);
            var cursor := if i == 0 then None else Some(CursorOf(sort, all[i - 1]));
            var r := Discover(u, table, wanted, sort, cursor);
            r.Ok? && r.value.0 == Take(all[i..], PAGE_SIZE) &&
            r.value.1 == if |all| - i > PAGE_SIZE then Some(CursorOf(sort, all[i + PAGE_SIZE - 1])) else None
  {
    hide Ordered, CursorOf;
    var all := Ordered(table, wanted, sort, Top);
    if i > 0 {
      RestOfListing(u, table, wanted, sort, i);
      hide StartAt;
    }
    assert all[0..] == all;
  }

  lemma TakeExtends(all: seq<Entry>, i: nat, n: nat)
    requires i <= |all|
    ensures var page := Take(all[i..], n);
            |page| == (if |all| - i < n then |all| - i else n) && all[..i] + page == all[..i + |page|]
  {
    assert all[..|all|] == all;
  }

  /** The same page as progress through the listing. */
  lemma PageExtends(u: Unicode, table: seq<Entry>, wanted: Entry -> bool, sort: SortMode, all: seq<Entry>, i: nat,
                    cursor: Option<string>)
    requires Lawful(u) && Tidy(table) && all == Ordered(table, wanted, sort, Top) && i <= |all|
    requires cursor == if i == 0 then None else Some(CursorOf(sort, all[i - 1]))
    ensures Discover(u, table, wanted, sort, cursor).Ok?
    ensures var (page, next) := Discover(u, table, wanted, sort, cursor).value;
            && |page| <= PAGE_SIZE && i + |page| <= |all| && all[..i] + page == all[..i + |page|]
            && (next.None? ==> i + |page| == |all| && (i < |all| ==> page != []))
            && (next.Some? ==> |page| == PAGE_SIZE && i + PAGE_SIZE < |all| && next == Some(CursorOf(sort, all[i + PAGE_SIZE - 1])))
  {
    hide Ordered, CursorOf, Discover, Lawful, Tidy;
    PageIs(u, table, wanted, sort, i);
    TakeExtends(all, i, PAGE_SIZE);
  }

  /** What the listing order promises: the larger community first, or the names in order, and ids in order at a tie. */
  ghost predicate Precedes(sort: SortMode, a: Entry, b: Entry) {
    var x, y := a.community, b.community;
    if sort.ByMembers? then x.memberCount > y.memberCount || (x.memberCount == y.memberCount && LexLess(a.id, b.id))
    else LexLess(x.name, y.name) || (x.name == y.name && LexLess(a.id, b.id))
  }

  lemma StrictlyPrecedes(sort: SortMode, a: Entry, b: Entry)
    requires Le(sort)(a, b) && a.id != b.id
    ensures Precedes(sort, a, b)
  {
    hide LexLess;
    BeforeIsTotal(sort, a, b, b);
  }

  /** DIRECTORY WALK. On a fixed store, following `next_cursor` from the top ends, never fails, takes pages of at most
      twenty, and visits the listing in order: every listed community that matches, exactly once. */
  method Walk(u: Unicode, table: seq<Entry>, wanted: Entry -> bool, sort: SortMode)
    returns (visited: seq<Entry>, pages: seq<seq<Entry>>)
    requires Lawful(u) && Tidy(table)
    ensures visited == Ordered(table, wanted, sort, Top) && visited == Flat(pages)
    ensures DistinctIds(visited)
    ensures forall i, j :: 0 <= i < j < |visited| ==> Precedes(sort, visited[i], visited[j])
    ensures forall x :: x in visited <==>
              x in table && x.community.visibility.Public? && !x.community.takenDown && wanted(x)
    ensures forall i :: 0 <= i < |pages| ==> |pages[i]| <= PAGE_SIZE && (i < |pages| - 1 ==> |pages[i]| == PAGE_SIZE)
  {
    ghost var all := Ordered(table, wanted, sort, Top);
    visited, pages := Chain(u, table, wanted, sort, all);
    OrderedIs(table, wanted, sort, Top);
    hide Ordered, Tidy, Lawful;
    forall i, j | 0 <= i < j < |visited| ensures Precedes(sort, visited[i], visited[j]) {
      StrictlyPrecedes(sort, visited[i], visited[j]);
      hide Le, Before, Precedes;
    }
    hide Le, Precedes;
  }

  function Flat(pages: seq<seq<Entry>>): (r: seq<Entry>) {
    if pages == [] then [] else Flat(pages[..|pages| - 1]) + pages[|pages| - 1]
  }

  /** The pages so far: all full, and together the listing up to here. */
  ghost predicate Progress(all: seq<Entry>, visited: seq<Entry>, pages: seq<seq<Entry>>) {
    && |visited| <= |all| && visited == all[..|visited|] && visited == Flat(pages)
    && forall i :: 0 <= i < |pages| ==> |pages[i]| == PAGE_SIZE
  }

  lemma MoreProgress(all: seq<Entry>, visited: seq<Entry>, pages: seq<seq<Entry>>, page: seq<Entry>)
    requires Progress(all, visited, pages) && |page| <= PAGE_SIZE && |visited| + |page| <= |all|
    requires all[..|visited|] + page == all[..|visited| + |page|]
    ensures |page| == PAGE_SIZE ==> Progress(all, visited + page, pages + [page])
    ensures |visited| + |page| == |all| ==> visited + page == all && visited + page == Flat(pages + [page])
    ensures forall i :: 0 <= i <= |pages| ==> |(pages + [page])[i]| <= PAGE_SIZE && (i < |pages| ==> |(pages + [page])[i]| == PAGE_SIZE)
  {
    var more := pages + [page];
    assert more[..|more| - 1] == pages && more[|more| - 1] == page;
    assert all[..|all|] == all;
  }

  method Chain(u: Unicode, table: seq<Entry>, wanted: Entry -> bool, sort: SortMode, ghost all: seq<Entry>)
    returns (visited: seq<Entry>, pages: seq<seq<Entry>>)
    requires Lawful(u) && Tidy(table) && all == Ordered(table, wanted, sort, Top)
    ensures visited == all && visited == Flat(pages)
    ensures forall i :: 0 <= i < |pages| ==> |pages[i]| <= PAGE_SIZE && (i < |pages| - 1 ==> |pages[i]| == PAGE_SIZE)
  {
    hide Ordered, Discover, CursorOf, Tidy, Lawful;
    var cursor: Option<string> := None;
    visited, pages := [], [];
    assert Progress(all, visited, pages);
    while true
      invariant |visited| <= |all| && Progress(all, visited, pages)
      invariant cursor == if visited == [] then None else Some(CursorOf(sort, all[|visited| - 1]))
      decreases |all| - |visited|
    {
      hide Progress, Flat;
      PageExtends(u, table, wanted, sort, all, |visited|, cursor);
      var page := Discover(u, table, wanted, sort, cursor);
      ghost var before, done := visited, pages;
      visited := visited + page.value.0;
      pages := pages + [page.value.0];
      MoreProgress(all, before, done, page.value.0);
      if page.value.1.None? { return; }
      cursor := page.value.1;
    }
  }

  /** The key of a cursor that gets past the digit gate. */
  predicate PassesGate(u: Unicode, cursor: Option<string>) {
    && cursor.Some? && DecodeCursor(cursor.value, ByMembers).Ok?
    && var body := StripDashes(DecodeCursor(cursor.value, ByMembers).value.0);
    body != [] && AllDigits(u, body)
  }

  /** The integer such a key spells, where it spells one that Python reads and the database binds. */
  predicate SpellsCount(u: Unicode, key: string) {
    var body := StripDashes(key);
    && |key| - |body| <= 1 && AllDecimal(u, body) && |body| <= MAX_STR_DIGITS
    && (if |key| == |body| then ReadNat(u, body) < INT64_SIZE else ReadNat(u, body) <= INT64_SIZE)
  }

  /** A cursor fails otherwise than by InvalidCursor exactly when the gate passes a key that is not the text of a
      database integer: two or more leading dashes, a digit that is no decimal, more than 4300 digits, or a number
      outside 64 bits. */
  lemma UncaughtIff(u: Unicode, table: seq<Entry>, wanted: Entry -> bool, sort: SortMode, cursor: Option<string>)
    requires Lawful(u)
    ensures var r := Discover(u, table, wanted, sort, cursor);
            r.Err? && r.error != InvalidCursor <==>
              sort.ByMembers? && PassesGate(u, cursor)
              && !SpellsCount(u, DecodeCursor(cursor.value, ByMembers).value.0)
  {
    hide Ordered, ReadNat, AllDecimal, AllDigits, StripDashes, SplitFirst, SplitLast, Lawful;
    assert cursor == Some("") ==> SEP !in cursor.value;
  }

  /** The cursor text marks a place in this sort order: it encodes a key of it and an id. */
  ghost predicate Resumes(u: Unicode, sort: SortMode, raw: string, key: string, id: string) {
    && raw == EncodeCursor(sort, key, id) && SEP !in id
    && (sort.ByMembers? ==> StripDashes(key) != [] && AllDigits(u, StripDashes(key)) && SpellsCount(u, key))
  }

  /** A page is answered exactly without a cursor or with one that marks a place in this sort order; no other text
      falls back to the first page. */
  lemma AnsweredIff(u: Unicode, table: seq<Entry>, wanted: Entry -> bool, sort: SortMode, cursor: Option<string>)
    requires Lawful(u)
    ensures Discover(u, table, wanted, sort, cursor).Ok? <==>
              cursor.None? || cursor.value == "" || exists key, id :: Resumes(u, sort, cursor.value, key, id)
  {
    hide Ordered, ReadNat, AllDecimal, AllDigits, StripDashes, DecodeCursor, EncodeCursor, Lawful;
    if cursor.Some? && cursor.value != "" {
      var d := DecodeCursor(cursor.value, sort);
      if d.Ok? {
        OnlyEncodingsDecode(cursor.value, sort);
        if Discover(u, table, wanted, sort, cursor).Ok? {
          assert Resumes(u, sort, cursor.value, d.value.0, d.value.1);
        }
      }
      if key, id :| Resumes(u, sort, cursor.value, key, id) {
        CursorRoundTrip(sort, key, id, sort);
      }
    }
  }

  lemma TwoDashesParse(u: Unicode)
    requires Lawful(u)
    ensures ParseKey(u, "--5") == Err(ValueError)
  {
    DigitReads(u, 5);
    hide Lawful, ParseKey;
    assert "--5" == "--" + "5" && "5"[0] == Digit(5);
    TwoDashesRaise(u, "5");
  }

  lemma TwoDashesRaise(u: Unicode, digits: string)
    requires digits != [] && digits[0] != '-' && AllDigits(u, digits)
    ensures ParseKey(u, "--" + digits) == Err(ValueError)
  {
    hide AllDecimal, AllDigits, ReadNat;
    StripTwoDashes(digits);
    hide StripDashes;
  }

  lemma StripTwoDashes(digits: string)
    requires digits != [] && digits[0] != '-'
    ensures StripDashes("--" + digits) == digits
  {
    StripOneDash(digits);
    assert ("--" + digits)[0] == '-' && ("--" + digits)[1..] == "-" + digits;
  }

  lemma TwoDashesUncaught(u: Unicode, table: seq<Entry>, wanted: Entry -> bool)
    requires Lawful(u)
    ensures Discover(u, table, wanted, ByMembers, Some(EncodeCursor(ByMembers, "--5", "x"))) == Err(ValueError)
  {
    hide EncodeCursor, DecodeCursor, Lawful, ParseKey, Ordered;
    TwoDashesParse(u);
    CursorNotEmpty(ByMembers, "--5", "x");
    CursorRoundTrip(ByMembers, "--5", "x", ByMembers);
  }

  /** The first count too large for the database, printed as the code prints counts. */
  lemma LargeCountUncaught(u: Unicode, table: seq<Entry>, wanted: Entry -> bool)
    requires Lawful(u)
    ensures Discover(u, table, wanted, ByMembers, Some(EncodeCursor(ByMembers, PrintInt(INT64_SIZE), "x"))) == Err(OverflowError)
  {
    hide EncodeCursor, DecodeCursor, Lawful, ParseKey, Ordered, PrintInt;
    var key := PrintInt(INT64_SIZE);
    ParseOfPrint(u, INT64_SIZE);
    CursorNotEmpty(ByMembers, key, "x");
    CursorRoundTrip(ByMembers, key, "x", ByMembers);
  }

  /** And a text of more digits than Python converts, however small the number it spells. */
  lemma LongTextUncaught(u: Unicode, digits: string, table: seq<Entry>, wanted: Entry -> bool)
    requires Lawful(u) && |digits| > MAX_STR_DIGITS && digits[0] != '-' && AllDigits(u, digits)
    ensures Discover(u, table, wanted, ByMembers, Some(EncodeCursor(ByMembers, digits, "x"))) == Err(ValueError)
  {
    hide EncodeCursor, DecodeCursor, Lawful, Ordered, ParseKey, AllDigits;
    LongTextParses(u, digits);
    CursorNotEmpty(ByMembers, digits, "x");
    CursorRoundTrip(ByMembers, digits, "x", ByMembers);
  }
}
