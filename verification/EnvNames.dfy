/** Environment names of API parameters: `defaultURL` becomes `REACT_APP_DEFAULT_URL`. */
module EnvNames {
  import opened Text

  predicate Capital(c: char) {
    'A' <= c <= 'Z'
  }

  predicate Small(c: char) {
    'a' <= c <= 'z'
  }

  function UpperChar(c: char): char {
    if Small(c) then (c as int - 'a' as int + 'A' as int) as char else c
  }

  function LowerChar(c: char): char {
    if Capital(c) then (c as int - 'A' as int + 'a' as int) as char else c
  }

  function Upper(s: string): string {
    seq(|s|, i requires 0 <= i < |s| => UpperChar(s[i]))
  }

  function Lower(s: string): string {
    seq(|s|, i requires 0 <= i < |s| => LowerChar(s[i]))
  }

  /** The index of the first capital, or the length. */
  function FirstCapital(s: string): (i: nat)
    ensures i <= |s|
    ensures forall k | 0 <= k < i :: !Capital(s[k])
    ensures i < |s| ==> Capital(s[i])
  {
    if s == "" then 0
    else if Capital(s[0]) then 0
    else
      assert forall k | 0 < k < |s| :: s[k] == s[1..][k - 1];
      1 + FirstCapital(s[1..])
  }

  datatype Cut = Word(word: string) | Two(head: string, tail: string)

  function LowerFirst(s: string): string {
    if s == "" then "" else [LowerChar(s[0])] + s[1..]
  }

  function ApiSplit(s: string): (r: Cut)
    ensures r.Two? ==> 0 < |r.tail| < |s| && |r.head| > 0
    decreases s != "" && Capital(s[0])
  {
    if Upper(s) == s then Word(s)
    else
      var i := FirstCapital(s);
      if i == |s| then Word(Upper(s))
      else if i == 0 then ApiSplit(LowerFirst(s))
      else Two(s[..i], s[i..])
  }

  /** The words of a name, in upper case. */
  function Words(s: string): (w: seq<string>)
    ensures w != []
    decreases |s|
  {
    match ApiSplit(s)
    case Word(word) => [word]
    case Two(head, tail) => [Upper(head)] + Words(tail)
  }

  const PREFIX := "REACT_APP_"

  function EnvName(s: string): string {
    PREFIX + Join(Words(s), '_')
  }

  method ApiToReactApp(s: string) returns (name: string)
    ensures name == EnvName(s)
  {
    var r := ApiSplit(s);
    if r.Word? {
      return PREFIX + r.word;
    }
    var w: seq<string> := [];
    ghost var left := s;
    while r.Two?
      invariant r == ApiSplit(left)
      invariant w + Words(left) == Words(s)
      decreases |left|
    {
      w := w + [Upper(r.head)];
      left := r.tail;
      r := ApiSplit(r.tail);
    }
    w := w + [r.word];
    return PREFIX + Join(w, '_');
  }

  // ---------------------------------------------------------------- nothing is lost

  function Concat(words: seq<string>): string {
    if words == [] then "" else words[0] + Concat(words[1..])
  }

  /** The text without its underscores. */
  function Strip(s: string): string {
    if s == "" then "" else (if s[0] == '_' then "" else [s[0]]) + Strip(s[1..])
  }

  /** What ApiSplit takes apart, in upper case, is the upper-case input. */
  lemma {:induction false} SplitUpper(s: string)
    ensures match ApiSplit(s)
            case Word(word) => word == Upper(s)
            case Two(head, tail) => Upper(head) + Upper(tail) == Upper(s)
    decreases s != "" && Capital(s[0])
  {
    if Upper(s) != s && FirstCapital(s) == 0 && s != "" {
      SplitUpper(LowerFirst(s));
      assert Upper(LowerFirst(s)) == Upper(s);
    }
  }

  lemma {:induction false} WordsConcat(s: string)
    ensures Concat(Words(s)) == Upper(s)
    decreases |s|
  {
    SplitUpper(s);
    match ApiSplit(s)
    case Word(word) =>
      assert Concat([word]) == word + Concat([]);
    case Two(head, tail) =>
      WordsConcat(tail);
      assert Words(s)[1..] == Words(tail);
  }

  lemma {:induction false} StripConcat(a: string, b: string)
    ensures Strip(a + b) == Strip(a) + Strip(b)
  {
    if a == "" {
      assert a + b == b;
    } else {
      assert (a + b)[1..] == a[1..] + b;
      StripConcat(a[1..], b);
    }
  }

  lemma {:induction false} StripJoin(words: seq<string>)
    ensures Strip(Join(words, '_')) == Strip(Concat(words))
  {
    if |words| == 1 {
      assert Concat(words) == words[0] + Concat([]);
      assert words[0] + "" == words[0];
    } else if words != [] {
      StripJoin(words[1..]);
      StripConcat(words[0], Concat(words[1..]));
      StripConcat(words[0] + ['_'], Join(words[1..], '_'));
      StripConcat(words[0], ['_']);
      assert Strip(['_']) == Strip("");
    }
  }

  lemma {:induction false} StripPlain(s: string)
    requires '_' !in s
    ensures Strip(s) == s
  {
    if s != "" {
      StripPlain(s[1..]);
      assert s == [s[0]] + s[1..];
    }
  }

  /** Deleting the underscores after the prefix leaves exactly the upper-case name. */
  lemma EnvNameLetters(s: string)
    requires '_' !in s
    ensures EnvName(s)[..|PREFIX|] == PREFIX
    ensures Strip(EnvName(s)[|PREFIX|..]) == Upper(s)
  {
    WordsConcat(s);
    StripJoin(Words(s));
    assert '_' !in Upper(s);
    StripPlain(Upper(s));
    assert EnvName(s)[|PREFIX|..] == Join(Words(s), '_');
  }

  // ---------------------------------------------------------------- where the underscores are

  /** A word begins at every capital but those that go on the run of capitals a name ends in. */
  predicate Begins(s: string, k: nat)
    requires k < |s|
  {
    k > 0 && Capital(s[k]) && exists j | k - 1 <= j < |s| :: !Capital(s[j])
  }

  /** The name from `k` on, in upper case, with an underscore in front of each word. */
  function Snake(s: string, k: nat): string
    requires k <= |s|
    decreases |s| - k
  {
    if k == |s| then ""
    else (if Begins(s, k) then "_" else "") + ([UpperChar(s[k])] + Snake(s, k + 1))
  }

  lemma UpperRange(s: string, k: nat, i: nat)
    requires k < i <= |s|
    ensures Upper(s[k..i]) == [UpperChar(s[k])] + Upper(s[k + 1..i])
  {
  }

  lemma Regroup(a: string, b: string, c: string)
    ensures a + (b + c) == (a + b) + c
  {
  }

  /** Up to `i` no word begins. */
  lemma {:induction false} SnakeUnbroken(s: string, k: nat, i: nat)
    requires k <= i <= |s| && forall j | k <= j < i :: !Begins(s, j)
    ensures Snake(s, k) == Upper(s[k..i]) + Snake(s, i)
    decreases i - k
  {
    if k < i {
      SnakeUnbroken(s, k + 1, i);
      UpperRange(s, k, i);
      var rest := [UpperChar(s[k])] + Snake(s, k + 1);
      assert Snake(s, k) == "" + rest == rest;
      Regroup([UpperChar(s[k])], Upper(s[k + 1..i]), Snake(s, i));
    } else {
      assert Upper(s[k..i]) == "";
    }
  }

  /** Words begin in a name as in its tail, after the tail's first character. */
  lemma {:induction false} SnakeShift(s: string, i: nat, k: nat)
    requires i <= |s| && 0 < k <= |s| - i
    ensures Snake(s, i + k) == Snake(s[i..], k)
    decreases |s| - k
  {
    if i + k < |s| {
      BeginsShift(s, i, k);
      SnakeShift(s, i, k + 1);
    }
  }

  lemma BeginsShift(s: string, i: nat, k: nat)
    requires i <= |s| && 0 < k < |s| - i
    ensures s[i..][k] == s[i + k]
    ensures Begins(s, i + k) <==> Begins(s[i..], k)
  {
    var t := s[i..];
    if Begins(s, i + k) {
      var j :| i + k - 1 <= j < |s| && !Capital(s[j]);
      assert t[j - i] == s[j];
    }
    if Begins(t, k) {
      var j :| k - 1 <= j < |t| && !Capital(t[j]);
      assert s[i + j] == t[j];
    }
  }

  /** A tail, whose first character is a capital. */
  lemma {:induction false} TailSnake(t: string)
    requires Letters(t) && t != "" && Capital(t[0])
    ensures Join(Words(t), '_') == Snake(t, 0)
    decreases |t|
  {
    AllCapitals(t);
    if Upper(t) == t {
      SnakeUnbroken(t, 0, |t|);
      assert t[0..|t|] == t;
    } else {
      LowerFirstCut(t);
      CutTail(t);
      CutSnake(t, FirstCapital(LowerFirst(t)));
    }
  }

  /** A name that is cut at `i`, its first capital after the first character. */
  lemma CutSnake(s: string, i: nat)
    requires Letters(s) && s != "" && 0 < i <= |s| && (exists j | 0 <= j < |s| :: !Capital(s[j]))
    requires forall k | 0 < k < i :: !Capital(s[k])
    requires i < |s| ==> Capital(s[i])
    requires Words(s) == if i == |s| then [Upper(s)] else [Upper(s[..i])] + Words(s[i..])
    ensures Join(Words(s), '_') == Snake(s, 0)
    decreases |s|, 0
  {
    SnakeUnbroken(s, 0, i);
    assert s[0..i] == s[..i];
    if i == |s| {
      assert s[..i] == s;
    } else {
      var tail := s[i..];
      assert forall c <- tail :: c in s;
      TailSnake(tail);
      CutBegins(s, i);
      SnakeAtCut(s, i);
      JoinCut(Upper(s[..i]), Words(tail));
      Regroup(Upper(s[..i]), "_", Snake(tail, 0));
    }
  }

  lemma SnakeAtCut(s: string, i: nat)
    requires 0 < i < |s| && Begins(s, i)
    ensures Snake(s, i) == "_" + Snake(s[i..], 0)
  {
    var tail := s[i..];
    SnakeShift(s, i, 1);
    assert !Begins(tail, 0) && tail[0] == s[i];
    var rest := [UpperChar(s[i])] + Snake(tail, 1);
    assert Snake(tail, 0) == "" + rest == rest;
  }

  lemma CutBegins(s: string, i: nat)
    requires 0 < i < |s| && Capital(s[i]) && (exists j | 0 <= j < |s| :: !Capital(s[j]))
    requires forall k | 0 < k < i :: !Capital(s[k])
    ensures Begins(s, i)
  {
    var j :| 0 <= j < |s| && !Capital(s[j]);
    assert if i == 1 then !Capital(s[j]) else !Capital(s[i - 1]);
  }

  lemma JoinCut(word: string, rest: seq<string>)
    requires rest != []
    ensures Join([word] + rest, '_') == word + "_" + Join(rest, '_')
  {
    assert ([word] + rest)[1..] == rest;
  }

  /** The environment name letter by letter, with the underscores exactly where words begin:
      `defaultURL` has one, in front of the capitals it ends in. */
  lemma EnvNameExact(s: string)
    requires Letters(s)
    ensures EnvName(s) == PREFIX + Snake(s, 0)
  {
    AllCapitals(s);
    if Upper(s) == s {
      SnakeUnbroken(s, 0, |s|);
      assert s[0..|s|] == s;
    } else if Capital(s[0]) {
      TailSnake(s);
    } else {
      var i := FirstCapital(s);
      WordsCut(s);
      CutSnake(s, i);
    }
  }

  // ---------------------------------------------------------------- reading names back

  function Capitalise(word: string): string {
    if word == "" then "" else [word[0]] + Lower(word[1..])
  }

  function CamelTail(words: seq<string>): string {
    if words == [] then "" else Capitalise(words[0]) + CamelTail(words[1..])
  }

  /** snake case to camel case */
  function Camel(snake: string): string {
    var words := Split(snake, '_');
    Lower(words[0]) + CamelTail(words[1..])
  }

  predicate Letters(s: string) {
    forall c <- s :: Capital(c) || Small(c)
  }

  predicate EndsInTwoCapitals(s: string) {
    |s| >= 2 && Capital(s[|s| - 1]) && Capital(s[|s| - 2])
  }

  lemma AllCapitals(s: string)
    requires Letters(s)
    ensures Upper(s) == s <==> forall i | 0 <= i < |s| :: Capital(s[i])
  {
    forall i | 0 <= i < |s|
      ensures Capital(s[i]) <==> UpperChar(s[i]) == s[i]
    {
      assert s[i] in s;
    }
    if Upper(s) == s {
      forall i | 0 <= i < |s|
        ensures Capital(s[i])
      {
        assert Upper(s)[i] == UpperChar(s[i]);
      }
    }
  }

  lemma LowerUpper(s: string)
    requires Letters(s) && forall i | 0 <= i < |s| :: !Capital(s[i])
    ensures Lower(Upper(s)) == s
  {
    forall i | 0 <= i < |s|
      ensures Lower(Upper(s))[i] == s[i]
    {
      assert s[i] in s;
    }
  }

  lemma OneWord(t: string)
    requires Letters(t) && t != "" && Capital(t[0]) && Upper(t) == t
    ensures CamelTail(Words(t)) == t <==> !EndsInTwoCapitals(t)
  {
    AllCapitals(t);
    assert CamelTail([t]) == Capitalise(t) + CamelTail([]);
    if |t| >= 2 {
      assert Capitalise(t)[1] == LowerChar(t[1]);
    } else {
      assert Capitalise(t) == t;
    }
  }

  lemma CaseOfChar(c: char)
    ensures Capital(c) ==> Small(LowerChar(c)) && UpperChar(LowerChar(c)) == c
    ensures Small(c) ==> Capital(UpperChar(c)) && LowerChar(UpperChar(c)) == c
    ensures Capital(c) ==> !Small(c)
  {
  }

  lemma LowerFirstCut(t: string)
    requires t != "" && Capital(t[0])
    ensures var t', i := LowerFirst(t), FirstCapital(LowerFirst(t));
            && i > 0 && |t'| == |t| && (forall k | 0 < k < |t| :: t'[k] == t[k])
            && Upper(t') != t' && Upper(t') == Upper(t)
            && (forall k | 0 < k < i :: !Capital(t[k]))
            && (i < |t| ==> Capital(t[i]))
  {
    var t' := LowerFirst(t);
    CaseOfChar(t[0]);
    CaseOfChar(t'[0]);
    assert !Capital(t'[0]);
    assert Upper(t')[0] == UpperChar(t'[0]) != t'[0];
    assert UpperChar(t[0]) == t[0];
    assert Upper(t') == Upper(t);
    var i := FirstCapital(t');
    forall k | 0 < k < i
      ensures !Capital(t[k])
    {
      assert t'[k] == t[k];
    }
  }

  /** A name with a small first letter is cut before its first capital. */
  lemma WordsCut(s: string)
    requires s != "" && Upper(s) != s && FirstCapital(s) > 0
    ensures var i := FirstCapital(s);
            Words(s) == if i == |s| then [Upper(s)] else [Upper(s[..i])] + Words(s[i..])
  {
  }

  /** A tail that is not all capitals is cut after its first word. */
  lemma CutTail(t: string)
    requires t != "" && Capital(t[0]) && Upper(t) != t
    ensures var i := FirstCapital(LowerFirst(t));
            Words(t) == if i == |t| then [Upper(t)] else [Upper(t[..i])] + Words(t[i..])
  {
    LowerFirstCut(t);
    var t' := LowerFirst(t);
    var i := FirstCapital(t');
    WordsCut(t');
    WordsLowered(t);
    if i < |t| {
      assert t'[i..] == t[i..];
      UpperPrefix(t, t', i);
    }
  }

  lemma WordsLowered(t: string)
    requires t != "" && Capital(t[0]) && Upper(t) != t
    ensures Words(t) == Words(LowerFirst(t))
  {
    assert FirstCapital(t) == 0;
    assert ApiSplit(t) == ApiSplit(LowerFirst(t));
  }

  lemma UpperPrefix(a: string, b: string, i: nat)
    requires Upper(a) == Upper(b) && i <= |a| == |b|
    ensures Upper(a[..i]) == Upper(b[..i])
  {
    forall k | 0 <= k < i
      ensures Upper(a[..i])[k] == Upper(b[..i])[k]
    {
      assert Upper(a)[k] == UpperChar(a[k]) && Upper(b)[k] == UpperChar(b[k]);
    }
  }

  /** A tail that begins with a capital is put together again unless it ends in two capitals. */
  lemma {:induction false} TailBack(t: string)
    requires Letters(t) && t != "" && Capital(t[0])
    ensures CamelTail(Words(t)) == t <==> !EndsInTwoCapitals(t)
    decreases |t|
  {
    if Upper(t) == t {
      OneWord(t);
    } else {
      LowerFirstCut(t);
      CutTail(t);
      var i := FirstCapital(LowerFirst(t));
      CapitaliseUpper(t, i);
      if i == |t| {
        LoneTail(t);
      } else {
        var tail := t[i..];
        assert forall c <- tail :: c in t;
        assert tail[0] == t[i];
        TailBack(tail);
        CamelTailCons(Upper(t[..i]), Words(tail));
        assert CamelTail(Words(t)) == t[..i] + CamelTail(Words(tail));
        PrefixBack(t, i, CamelTail(Words(tail)));
        EndOfTail(t, i);
      }
    }
  }

  lemma LoneTail(t: string)
    requires t != "" && Words(t) == [Upper(t)] && Capitalise(Upper(t[..|t|])) == t[..|t|]
    requires forall k | 0 < k < |t| :: !Capital(t[k])
    ensures CamelTail(Words(t)) == t && !EndsInTwoCapitals(t)
  {
    assert t[..|t|] == t;
    assert CamelTail([Upper(t)]) == Capitalise(Upper(t)) + CamelTail([]);
  }

  lemma CamelTailCons(word: string, rest: seq<string>)
    ensures CamelTail([word] + rest) == Capitalise(word) + CamelTail(rest)
  {
    assert ([word] + rest)[1..] == rest;
  }

  lemma PrefixBack(t: string, i: nat, tail: string)
    requires i <= |t|
    ensures t[..i] + tail == t <==> tail == t[i..]
  {
    assert t == t[..i] + t[i..];
    assert (t[..i] + tail)[i..] == tail;
  }

  /** The last two characters of a tail are those of what its first word leaves. */
  lemma EndOfTail(t: string, i: nat)
    requires Letters(t) && 0 < i < |t| && Capital(t[0]) && Upper(t) != t
    requires forall k | 0 < k < i :: !Capital(t[k])
    ensures EndsInTwoCapitals(t) <==> EndsInTwoCapitals(t[i..])
  {
    AllCapitals(t);
  }

  lemma CapitaliseUpper(t: string, i: nat)
    requires Letters(t) && 0 < i <= |t| && Capital(t[0]) && forall k | 0 < k < i :: !Capital(t[k])
    ensures Capitalise(Upper(t[..i])) == t[..i]
  {
    var word := Upper(t[..i]);
    assert |word| == i;
    forall k | 0 <= k < i
      ensures Capitalise(word)[k] == t[k]
    {
      assert t[k] in t;
      CaseOfChar(t[k]);
      assert word[k] == UpperChar(t[k]);
      if k > 0 {
        assert Capitalise(word)[k] == LowerChar(word[1..][k - 1]);
      }
    }
  }

  lemma {:induction false} WordsPlain(s: string)
    requires Letters(s)
    ensures forall w <- Words(s) :: '_' !in w
    decreases |s|
  {
    SplitUpper(s);
    SplitLetters(s);
    match ApiSplit(s)
    case Word(word) => assert '_' !in Upper(s);
    case Two(head, tail) =>
      WordsPlain(tail);
      assert '_' !in Upper(head);
  }

  lemma {:induction false} SplitLetters(s: string)
    requires Letters(s)
    ensures ApiSplit(s).Two? ==> Letters(ApiSplit(s).head) && Letters(ApiSplit(s).tail)
    decreases s != "" && Capital(s[0])
  {
    if Upper(s) != s && FirstCapital(s) == 0 && s != "" {
      assert s[0] in s;
      assert Letters(LowerFirst(s));
      SplitLetters(LowerFirst(s));
    }
  }

  /** A name of letters can be read back from its environment name if and only if it
      starts in lower case and does not end in two capitals (as `defaultURL` does). */
  lemma EnvNameRoundTrip(s: string)
    requires Letters(s)
    ensures Camel(EnvName(s)[|PREFIX|..]) == s <==> s == "" || (Small(s[0]) && !EndsInTwoCapitals(s))
  {
    ReadBack(s);
    if s != "" {
      assert s[0] in s;
      var i := FirstCapital(s);
      if i == 0 {
        CamelStartsLow(s);
      } else {
        SmallIsNotUpper(s);
        LowStart(s, i);
      }
    }
  }

  lemma ReadBack(s: string)
    requires Letters(s)
    ensures Camel(EnvName(s)[|PREFIX|..]) == Lower(Words(s)[0]) + CamelTail(Words(s)[1..])
  {
    WordsPlain(s);
    SplitJoin(Words(s), '_');
    assert EnvName(s)[|PREFIX|..] == Join(Words(s), '_');
  }

  lemma SmallIsNotUpper(s: string)
    requires s != "" && Small(s[0])
    ensures Upper(s) != s
  {
    CaseOfChar(s[0]);
    CaseOfChar(UpperChar(s[0]));
    assert Upper(s)[0] == UpperChar(s[0]);
  }

  lemma LowStart(s: string, i: nat)
    requires Letters(s) && s != "" && Small(s[0]) && Upper(s) != s && i == FirstCapital(s) > 0
    ensures Lower(Words(s)[0]) + CamelTail(Words(s)[1..]) == s <==> !EndsInTwoCapitals(s)
  {
    WordsCut(s);
    if i == |s| {
      LowerUpper(s);
    } else {
      var head, tail := s[..i], s[i..];
      assert forall c <- head :: c in s;
      assert forall c <- tail :: c in s;
      assert tail[0] == s[i];
      LowerUpper(head);
      TailBack(tail);
      assert Words(s)[0] == Upper(head) && Words(s)[1..] == Words(tail);
      PrefixBack(s, i, CamelTail(Words(tail)));
      EndAfterSmall(s, i);
    }
  }

  lemma EndAfterSmall(s: string, i: nat)
    requires 0 < i < |s| && !Capital(s[i - 1])
    ensures EndsInTwoCapitals(s) <==> EndsInTwoCapitals(s[i..])
  {
  }

  /** Read-back names never begin with a capital. */
  lemma CamelStartsLow(s: string)
    requires Letters(s) && s != "" && Capital(s[0])
    ensures Camel(EnvName(s)[|PREFIX|..]) != s
  {
    ReadBack(s);
    FirstWord(s);
    var word := Words(s)[0];
    CaseOfChar(word[0]);
    assert Lower(word)[0] == LowerChar(word[0]);
    assert !Capital(Lower(word)[0]);
  }

  lemma {:induction false} FirstWord(s: string)
    requires s != ""
    ensures Words(s)[0] != ""
  {
    SplitUpper(s);
    match ApiSplit(s)
    case Word(word) => assert |word| == |s|;
    case Two(head, tail) => assert |Upper(head)| > 0;
  }

  /** Hence no two such names share an environment name. */
  lemma EnvNameInjective(a: string, b: string)
    requires Letters(a) && (a == "" || (Small(a[0]) && !EndsInTwoCapitals(a)))
    requires Letters(b) && (b == "" || (Small(b[0]) && !EndsInTwoCapitals(b)))
    requires EnvName(a) == EnvName(b)
    ensures a == b
  {
    EnvNameRoundTrip(a);
    EnvNameRoundTrip(b);
  }
}
