/** JavaScript's `split` and `join` on a one-character separator. */
module Text {

  function Split(s: string, c: char): (parts: seq<string>)
    ensures parts != []
  {
    if s == "" then [""] else Front(s[0], Split(s[1..], c), c)
  }

  /** One more character in front of the parts. */
  function Front(x: char, parts: seq<string>, c: char): (r: seq<string>)
    requires parts != []
    ensures r != []
  {
    if x == c then [""] + parts else [[x] + parts[0]] + parts[1..]
  }

  lemma SplitFront(x: char, s: string, c: char)
    ensures Split([x] + s, c) == Front(x, Split(s, c), c)
  {
    assert ([x] + s)[1..] == s;
  }

  lemma FrontConcat(x: char, p: seq<string>, q: seq<string>, c: char)
    requires p != []
    ensures Front(x, p + q, c) == Front(x, p, c) + q
  {
    assert (p + q)[0] == p[0] && (p + q)[1..] == p[1..] + q;
  }

  function Join(parts: seq<string>, c: char): string {
    if parts == [] then ""
    else if |parts| == 1 then parts[0]
    else parts[0] + [c] + Join(parts[1..], c)
  }

  lemma {:induction false} SplitPlain(s: string, c: char)
    requires c !in s
    ensures Split(s, c) == [s]
  {
    if s != "" {
      SplitPlain(s[1..], c);
      assert s == [s[0]] + s[1..] && s[0] in s;
    }
  }

  /** A separator splits what is before it and what is after it on their own. */
  lemma {:induction false} SplitAt(a: string, b: string, c: char)
    ensures Split(a + [c] + b, c) == Split(a, c) + Split(b, c)
  {
    if a == "" {
      assert a + [c] + b == [c] + b;
      SplitFront(c, b, c);
    } else {
      var tail := a[1..] + [c] + b;
      assert a + [c] + b == [a[0]] + tail;
      SplitFront(a[0], tail, c);
      SplitAt(a[1..], b, c);
      FrontConcat(a[0], Split(a[1..], c), Split(b, c), c);
    }
  }

  /** Text without the separator goes into the first part. */
  lemma {:induction false} SplitPrefix(a: string, b: string, c: char)
    requires c !in a
    ensures Split(a + b, c) == [a + Split(b, c)[0]] + Split(b, c)[1..]
  {
    if a == "" {
      assert a + b == b;
      assert a + Split(b, c)[0] == Split(b, c)[0];
    } else {
      assert a[0] in a && a + b == [a[0]] + (a[1..] + b);
      SplitFront(a[0], a[1..] + b, c);
      SplitPrefix(a[1..], b, c);
      assert [a[0]] + (a[1..] + Split(b, c)[0]) == a + Split(b, c)[0];
    }
  }

  /** Splitting undoes joining, as long as no part holds the separator. */
  lemma {:induction false} SplitJoin(parts: seq<string>, c: char)
    requires parts != [] && forall p <- parts :: c !in p
    ensures Split(Join(parts, c), c) == parts
  {
    assert parts[0] in parts;
    if |parts| == 1 {
      SplitPlain(parts[0], c);
    } else {
      SplitJoin(parts[1..], c);
      SplitPlain(parts[0], c);
      SplitAt(parts[0], Join(parts[1..], c), c);
      assert [parts[0]] + parts[1..] == parts;
    }
  }
}
