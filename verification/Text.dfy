/** Strings as the database and Python compare them: code point by code point. */
module Text {

  /** Strict lexicographic order, the order of Python's `<` on `str` and of SQLite's binary collation. */
  predicate LexLess(a: string, b: string) {
    b != [] && (a == [] || a[0] < b[0] || (a[0] == b[0] && LexLess(a[1..], b[1..])))
  }

  lemma {:induction false} LexTrichotomy(a: string, b: string)
    ensures LexLess(a, b) || a == b || LexLess(b, a)
    ensures !(LexLess(a, b) && LexLess(b, a))
    ensures a == b ==> !LexLess(a, b)
  {
    if a == [] || b == [] {
    } else {
      LexTrichotomy(a[1..], b[1..]);
      assert a == [a[0]] + a[1..] && b == [b[0]] + b[1..];
    }
  }

  lemma {:induction false} LexTransitive(a: string, b: string, c: string)
    requires LexLess(a, b) && LexLess(b, c)
    ensures LexLess(a, c)
  {
    if a != [] && a[0] == b[0] && b[0] == c[0] {
      LexTransitive(a[1..], b[1..], c[1..]);
    }
  }

  /** On strings of one length, a longer common head decides first. */
  lemma {:induction false} LexAppend(a: string, b: string, x: string, y: string)
    requires |a| == |b|
    ensures LexLess(a + x, b + y) <==> LexLess(a, b) || (a == b && LexLess(x, y))
  {
    if a == [] {
      assert a + x == x && b + y == y;
    } else {
      assert (a + x)[1..] == a[1..] + x && (b + y)[1..] == b[1..] + y;
      LexAppend(a[1..], b[1..], x, y);
      assert a == [a[0]] + a[1..] && b == [b[0]] + b[1..];
    }
  }

  lemma {:induction false} OneCharacter(c: char, d: char)
    ensures LexLess([c], [d]) <==> c < d
  {
    assert !LexLess([c][1..], [d][1..]);
  }

  /** The same order read from the end: on strings of one length the last character decides last. */
  lemma {:induction false} LexSnoc(a: string, b: string, c: char, d: char)
    requires |a| == |b|
    ensures LexLess(a + [c], b + [d]) <==> LexLess(a, b) || (a == b && c < d)
    ensures a + [c] == b + [d] <==> a == b && c == d
  {
    LexAppend(a, b, [c], [d]);
    OneCharacter(c, d);
    var s, t := a + [c], b + [d];
    assert s[..|a|] == a && t[..|b|] == b && s[|a|] == c && t[|b|] == d;
  }

  /** Python's `s.split(sep)` for a one-character separator. */
  function Split(s: string, sep: char): (parts: seq<string>)
    ensures |parts| >= 1
  {
    if s == [] then [""]
    else if s[0] == sep then [""] + Split(s[1..], sep)
    else
      var rest := Split(s[1..], sep);
      [[s[0]] + rest[0]] + rest[1..]
  }

  /** Cutting at a separator that the head does not contain gives the head back. */
  lemma {:induction false} SplitHead(head: string, sep: char, tail: string)
    requires sep !in head
    ensures Split(head + [sep] + tail, sep) == [head] + Split(tail, sep)
    ensures Split(head, sep) == [head]
  {
    var s := head + [sep] + tail;
    if head == [] {
      assert s[0] == sep && s[1..] == tail;
    } else {
      assert s[0] == head[0] && s[1..] == head[1..] + [sep] + tail;
      SplitHead(head[1..], sep, tail);
      assert head == [head[0]] + head[1..];
    }
  }
}
