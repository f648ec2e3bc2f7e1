/** The value domain of a column, and the colours and radii looked up in it. */
module ColourDomain {
  import opened JsValues
  import opened Features
  import opened Counts
  import opened Decimals

  /** The one column generateDomain buckets. */
  const TRAVEL_TIME := "Mean.Travel.Time..Seconds."

  /** `+v` when that is truthy. */
  function NonZero(js: Runtime, v: Value): Option<real> {
    var n := js.Number(v);
    if n.Some? && n.value != 0.0 then n else None
  }

  /** What one truthy value puts into the domain. */
  function Entry(js: Runtime, column: string, v: Value): Value {
    var n := NonZero(js, v);
    if n.None? then v
    else if column == TRAVEL_TIME then Num((n.value / 300.0).Floor as real)
    else Num(n.value)
  }

  function Entries(js: Runtime, data: seq<Feature>, column: string): seq<Value> {
    if data == [] then []
    else if Truthy(data[0].Get(column)) then [Entry(js, column, data[0].Get(column))] + Entries(js, data[1..], column)
    else Entries(js, data[1..], column)
  }

  predicate AllNumeric(js: Runtime, data: seq<Feature>, column: string) {
    forall d <- data | Truthy(d.Get(column)) :: NonZero(js, d.Get(column)).Some?
  }

  function Domain(js: Runtime, data: seq<Feature>, column: string): seq<Value> {
    var distinct := Distinct(Entries(js, data, column));
    if AllNumeric(js, data, column) then Sort(js, distinct) else distinct
  }

  /** The value generateDomain reads: a column name that itself reads as a nonzero number
      is taken for a position in `Object.keys`, which `keys` gives. */
  function Read(js: Runtime, keys: Feature -> seq<string>, d: Feature, column: string): Value {
    if NonZero(js, Str(column)).None? then d.Get(column) else Positioned(js, d, keys(d), column, 0)
  }

  predicate PrintsAs(js: Runtime, i: nat, column: string) {
    js.numberText(i as real) == column
  }

  /** The value of the first key from `i` on whose position prints as `column`. */
  function Positioned(js: Runtime, d: Feature, keys: seq<string>, column: string, i: nat): Value
    decreases |keys| - i
  {
    if i >= |keys| then Missing
    else if PrintsAs(js, i, column) then d.Get(keys[i])
    else Positioned(js, d, keys, column, i + 1)
  }

  /** What is read: the column of that name, or, if the name reads as a nonzero number, the
      value of the key whose position prints as the name, if there is one. */
  lemma ReadMeaning(js: Runtime, keys: Feature -> seq<string>, d: Feature, column: string)
    ensures var named := js.textNumber(column).None? || js.textNumber(column) == Some(0.0);
            var v := Read(js, keys, d, column);
            && (named ==> v == d.Get(column))
            && (!named && (forall i: nat | i < |keys(d)| :: !PrintsAs(js, i, column)) ==> v == Missing)
            && (!named ==> forall i: nat | i < |keys(d)| && PrintsAs(js, i, column)
                             && (forall k: nat | k < i :: !PrintsAs(js, k, column)) :: v == d.Get(keys(d)[i]))
  {
    if forall i: nat | i < |keys(d)| :: !PrintsAs(js, i, column) {
      PositionedNowhere(js, d, keys(d), column, 0);
    }
    forall i: nat | i < |keys(d)| && PrintsAs(js, i, column) && (forall k: nat | k < i :: !PrintsAs(js, k, column))
      ensures Positioned(js, d, keys(d), column, 0) == d.Get(keys(d)[i])
    {
      PositionedFirst(js, d, keys(d), column, 0, i);
    }
  }

  lemma {:induction false} PositionedNowhere(js: Runtime, d: Feature, keys: seq<string>, column: string, n: nat)
    requires forall i: nat | n <= i < |keys| :: !PrintsAs(js, i, column)
    ensures Positioned(js, d, keys, column, n) == Missing
    decreases |keys| - n
  {
    if n < |keys| {
      PositionedNowhere(js, d, keys, column, n + 1);
    }
  }

  lemma {:induction false} PositionedFirst(js: Runtime, d: Feature, keys: seq<string>, column: string, n: nat, i: nat)
    requires n <= i < |keys| && PrintsAs(js, i, column)
    requires forall k: nat | n <= k < i :: !PrintsAs(js, k, column)
    ensures Positioned(js, d, keys, column, n) == d.Get(keys[i])
    decreases i - n
  {
    if n < i {
      PositionedFirst(js, d, keys, column, n + 1, i);
    }
  }

  /** The rows as generateDomain reads them. */
  function Reread(js: Runtime, keys: Feature -> seq<string>, data: seq<Feature>, column: string): (r: seq<Feature>)
    ensures |r| == |data|
  {
    seq(|data|, i requires 0 <= i < |data| =>
          data[i].(properties := map[column := Read(js, keys, data[i], column)]))
  }

  method GenerateDomain(js: Runtime, keys: Feature -> seq<string>, data: seq<Feature>, column: string)
    returns (domain: Option<seq<Value>>)
    ensures domain == if data == [] || column == "" then None
                      else Some(Domain(js, Reread(js, keys, data, column), column))
  {
    if column == "" {
      return None;
    }
    domain := DomainOf(js, Reread(js, keys, data, column), column);
  }

  /** The loop, over the values read. */
  method DomainOf(js: Runtime, data: seq<Feature>, column: string) returns (domain: Option<seq<Value>>)
    ensures domain == if data == [] then None else Some(Domain(js, data, column))
  {
    if data == [] {
      return None;
    }
    var domainIsNumeric := true;
    var values: seq<Value> := [];
    for i := 0 to |data|
      invariant values + Entries(js, data[i..], column) == Entries(js, data, column)
      invariant domainIsNumeric
                <==> forall k | 0 <= k < i && Truthy(data[k].Get(column)) :: NonZero(js, data[k].Get(column)).Some?
    {
      EntriesFrom(js, data, i, column);
      var v := data[i].Get(column);
      if Truthy(v) {
        Shifted(values, Entry(js, column, v), Entries(js, data[i + 1..], column));
        values := values + [Entry(js, column, v)];
        if NonZero(js, v).None? {
          domainIsNumeric := false;
        }
      }
    }
    assert values + [] == values;
    var distinct := ToSet(values);
    return Some(if domainIsNumeric then Sort(js, distinct) else distinct);
  }

  lemma EntriesFrom(js: Runtime, data: seq<Feature>, i: nat, column: string)
    requires i < |data|
    ensures Entries(js, data[i..], column)
            == (if Truthy(data[i].Get(column)) then [Entry(js, column, data[i].Get(column))] else [])
               + Entries(js, data[i + 1..], column)
  {
    assert data[i..][0] == data[i] && data[i..][1..] == data[i + 1..];
  }

  lemma Shifted(a: seq<Value>, v: Value, b: seq<Value>)
    ensures a + ([v] + b) == (a + [v]) + b
  {
  }

  /** `Array.from(new Set(values))` */
  method ToSet(values: seq<Value>) returns (distinct: seq<Value>)
    ensures distinct == Distinct(values)
  {
    distinct := [];
    for i := 0 to |values|
      invariant distinct == Distinct(values[..i])
    {
      assert values[..i + 1][..i] == values[..i];
      if values[i] !in distinct {
        distinct := distinct + [values[i]];
      }
    }
    assert values[..|values|] == values;
  }

  /** The value `fill` looks up: numeric where it can be. */
  function FillValue(js: Runtime, v: Value): Value {
    var n := NonZero(js, v);
    if n.Some? then Num(n.value) else v
  }

  /** `domain.indexOf(v)` */
  function Index(domain: seq<Value>, v: Value): int {
    if domain == [] then -1
    else if domain[0] == v then 0
    else
      var i := Index(domain[1..], v);
      if i < 0 then -1 else i + 1
  }

  lemma {:induction false} IndexExact(domain: seq<Value>, v: Value)
    ensures var i := Index(domain, v);
            && (v in domain ==> 0 <= i < |domain| && domain[i] == v)
            && (v !in domain ==> i == -1)
  {
    if domain != [] {
      IndexExact(domain[1..], v);
      assert domain == [domain[0]] + domain[1..];
    }
  }

  lemma {:induction false} EntriesMembers(js: Runtime, data: seq<Feature>, column: string)
    ensures forall x :: x in Entries(js, data, column)
              <==> exists d <- data :: Truthy(d.Get(column)) && x == Entry(js, column, d.Get(column))
  {
    if data != [] {
      EntriesMembers(js, data[1..], column);
      assert data == [data[0]] + data[1..];
    }
  }

  lemma DomainMembers(js: Runtime, data: seq<Feature>, column: string)
    ensures forall x :: x in Domain(js, data, column) <==> x in Entries(js, data, column)
    ensures NoRepeats(Domain(js, data, column))
    ensures AllNumeric(js, data, column) ==> Ascending(js, Domain(js, data, column))
    ensures AllNumeric(js, data, column) ==> forall x <- Domain(js, data, column) :: x.Num?
  {
    var distinct := Distinct(Entries(js, data, column));
    DistinctExact(Entries(js, data, column));
    EntriesMembers(js, data, column);
    if AllNumeric(js, data, column) {
      assert Homogeneous(distinct);
      SortPermutes(js, distinct);
      SortAscending(js, distinct);
      SameMembersNoRepeats(distinct, Sort(js, distinct));
    }
  }

  /** Except in the travel-time column, and under names that read as a number (for which
      see NumericNameExactness), the colour of a truthy value is found in the domain: its
      fraction lies in [0, 1), values with different colours looked up are at different
      places, and on a numeric domain a larger value comes later. */
  lemma LookupNeverMisses(js: Runtime, keys: Feature -> seq<string>, data: seq<Feature>, column: string,
                          d: Feature, e: Feature)
    requires column != TRAVEL_TIME && NonZero(js, Str(column)).None? && d in data && e in data
    requires Truthy(d.Get(column)) && Truthy(e.Get(column))
    ensures var domain := Domain(js, Reread(js, keys, data, column), column);
            var v, u := FillValue(js, d.Get(column)), FillValue(js, e.Get(column));
            && 0 <= Index(domain, v) < |domain| && domain[Index(domain, v)] == v
            && 0.0 <= Index(domain, v) as real / |domain| as real < 1.0
            && (v != u ==> Index(domain, v) != Index(domain, u))
            && (AllNumeric(js, data, column) && v.Num? && u.Num? && v.n < u.n ==> Index(domain, v) < Index(domain, u))
            && var x, y := js.Number(d.Get(column)), js.Number(e.Get(column));
               && (x != y ==> Index(domain, v) != Index(domain, u))
               && (AllNumeric(js, data, column) && x.Some? && y.Some? && x.value < y.value ==>
                     Index(domain, v) < Index(domain, u))
               && (x.None? && y.None? && d.Get(column) != e.Get(column) ==> Index(domain, v) != Index(domain, u))
  {
    SameDomain(js, Reread(js, keys, data, column), data, column);
    var domain := Domain(js, data, column);
    var v, u := FillValue(js, d.Get(column)), FillValue(js, e.Get(column));
    EntriesMembers(js, data, column);
    DomainMembers(js, data, column);
    assert v == Entry(js, column, d.Get(column)) && u == Entry(js, column, e.Get(column));
    IndexExact(domain, v);
    IndexExact(domain, u);
    FractionBelowOne(Index(domain, v), |domain|);
    assert AllNumeric(js, data, column) && v.Num? && u.Num? && v.n < u.n ==> !(Index(domain, u) < Index(domain, v));
  }

  lemma FractionBelowOne(i: int, n: int)
    requires 0 <= i < n
    ensures 0.0 <= i as real / n as real < 1.0
  {
    var q, m := i as real / n as real, n as real;
    assert q * m == i as real;
    ScaleOrder(1.0, q, m);
    ScaleOrder(0.0, q, m);
  }

  /** In the travel-time column the domain holds five-minute buckets but the colour is
      looked up by the seconds. A number is found if and only if it happens to be the
      bucket of some row; a truthy value that is no number is always found. */
  lemma TravelTimeExactness(js: Runtime, data: seq<Feature>, d: Feature)
    requires d in data
    ensures var m := NonZero(js, d.Get(TRAVEL_TIME));
            var found := Index(Domain(js, data, TRAVEL_TIME), FillValue(js, d.Get(TRAVEL_TIME))) >= 0;
            && (m.Some? ==> (found <==> exists e <- data :: Truthy(e.Get(TRAVEL_TIME)) && Bucket(js, e) == m))
            && (m.None? && Truthy(d.Get(TRAVEL_TIME)) ==> found)
  {
    var m, v := NonZero(js, d.Get(TRAVEL_TIME)), FillValue(js, d.Get(TRAVEL_TIME));
    EntriesMembers(js, data, TRAVEL_TIME);
    DomainMembers(js, data, TRAVEL_TIME);
    IndexExact(Domain(js, data, TRAVEL_TIME), v);
    if m.Some? {
      forall e | e in data && Truthy(e.Get(TRAVEL_TIME))
        ensures Entry(js, TRAVEL_TIME, e.Get(TRAVEL_TIME)) == v <==> Bucket(js, e) == m
      {
        assert NonZero(js, v).Some?;
      }
    } else {
      assert Entry(js, TRAVEL_TIME, d.Get(TRAVEL_TIME)) == v;
    }
  }

  /** The five-minute bucket of a numeric travel time in seconds. */
  function Bucket(js: Runtime, e: Feature): Option<real> {
    var n := NonZero(js, e.Get(TRAVEL_TIME));
    if n.Some? then Some((n.value / 300.0).Floor as real) else None
  }

  /** So the largest positive travel time is never found. */
  lemma TravelTimeMisses(js: Runtime, data: seq<Feature>, d: Feature)
    requires d in data && NonZero(js, d.Get(TRAVEL_TIME)).Some? && NonZero(js, d.Get(TRAVEL_TIME)).value > 0.0
    requires forall e <- data | NonZero(js, e.Get(TRAVEL_TIME)).Some? ::
               NonZero(js, e.Get(TRAVEL_TIME)).value <= NonZero(js, d.Get(TRAVEL_TIME)).value
    ensures Index(Domain(js, data, TRAVEL_TIME), FillValue(js, d.Get(TRAVEL_TIME))) == -1
  {
    var m := NonZero(js, d.Get(TRAVEL_TIME)).value;
    IndexExact(Domain(js, data, TRAVEL_TIME), FillValue(js, d.Get(TRAVEL_TIME)));
    TravelTimeExactness(js, data, d);
    forall e | e in data && Bucket(js, e).Some?
      ensures Bucket(js, e).value < m
    {
      var n := NonZero(js, e.Get(TRAVEL_TIME)).value;
      assert n / 300.0 <= m / 300.0 < m;
    }
  }

  /** Under a name that reads as a nonzero number the domain holds the values at a
      position while the colour is looked up by name: it is found if and only if the same
      entry stands at that position of some row. Under any other name the domain is the
      one of the column. */
  lemma NumericNameExactness(js: Runtime, keys: Feature -> seq<string>, data: seq<Feature>, column: string, d: Feature)
    requires column != TRAVEL_TIME
    ensures NonZero(js, Str(column)).None? ==>
              Domain(js, Reread(js, keys, data, column), column) == Domain(js, data, column)
    ensures var found := Index(Domain(js, Reread(js, keys, data, column), column), FillValue(js, d.Get(column))) >= 0;
            found <==> exists e <- data :: Truthy(Read(js, keys, e, column))
                                           && FillValue(js, Read(js, keys, e, column)) == FillValue(js, d.Get(column))
  {
    var read, v := Reread(js, keys, data, column), FillValue(js, d.Get(column));
    DomainMembers(js, read, column);
    IndexExact(Domain(js, read, column), v);
    RereadEntries(js, keys, data, column, v);
    if NonZero(js, Str(column)).None? {
      SameDomain(js, read, data, column);
    }
  }

  lemma {:induction false} RereadEntries(js: Runtime, keys: Feature -> seq<string>, data: seq<Feature>,
                                         column: string, v: Value)
    requires column != TRAVEL_TIME
    ensures v in Entries(js, Reread(js, keys, data, column), column)
            <==> exists e <- data :: Truthy(Read(js, keys, e, column)) && FillValue(js, Read(js, keys, e, column)) == v
  {
    if data != [] {
      var read := Reread(js, keys, data, column);
      assert read[1..] == Reread(js, keys, data[1..], column);
      assert read[0].Get(column) == Read(js, keys, data[0], column);
      assert data == [data[0]] + data[1..];
      RereadEntries(js, keys, data[1..], column, v);
    }
  }

  lemma {:induction false} SameEntries(js: Runtime, a: seq<Feature>, b: seq<Feature>, column: string)
    requires |a| == |b| && forall i | 0 <= i < |a| :: a[i].Get(column) == b[i].Get(column)
    ensures Entries(js, a, column) == Entries(js, b, column)
  {
    if a != [] {
      SameEntries(js, a[1..], b[1..], column);
      assert a[0].Get(column) == b[0].Get(column);
    }
  }

  lemma SameNumeric(js: Runtime, a: seq<Feature>, b: seq<Feature>, column: string)
    requires |a| == |b| && forall i | 0 <= i < |a| :: a[i].Get(column) == b[i].Get(column)
    requires AllNumeric(js, a, column)
    ensures AllNumeric(js, b, column)
  {
    forall d | d in b && Truthy(d.Get(column))
      ensures NonZero(js, d.Get(column)).Some?
    {
      var i :| 0 <= i < |b| && b[i] == d;
      assert a[i] in a;
    }
  }

  lemma SameDomain(js: Runtime, a: seq<Feature>, b: seq<Feature>, column: string)
    requires |a| == |b| && forall i | 0 <= i < |a| :: a[i].Get(column) == b[i].Get(column)
    ensures Domain(js, a, column) == Domain(js, b, column)
  {
    SameEntries(js, a, b, column);
    if AllNumeric(js, a, column) {
      SameNumeric(js, a, b, column);
    } else if AllNumeric(js, b, column) {
      SameNumeric(js, b, a, column);
    }
  }

  // ---------------------------------------------------------------- radii

  /** getMin and getMax of a numeric array, folded as the source does. */
  function MinOf(domain: seq<real>): real
    requires domain != []
  {
    if |domain| == 1 then domain[0]
    else
      var m := MinOf(domain[..|domain| - 1]);
      if m <= domain[|domain| - 1] then m else domain[|domain| - 1]
  }

  function MaxOf(domain: seq<real>): real
    requires domain != []
  {
    if |domain| == 1 then domain[0]
    else
      var m := MaxOf(domain[..|domain| - 1]);
      if m >= domain[|domain| - 1] then m else domain[|domain| - 1]
  }

  lemma {:induction false} Extremes(domain: seq<real>)
    requires domain != []
    ensures MinOf(domain) in domain && MaxOf(domain) in domain
    ensures forall x <- domain :: MinOf(domain) <= x <= MaxOf(domain)
  {
    if |domain| > 1 {
      var init := domain[..|domain| - 1];
      Extremes(init);
      assert domain == init + [domain[|domain| - 1]];
    }
  }

  function Numbers(domain: seq<Value>): seq<real>
    requires forall x <- domain :: x.Num?
  {
    seq(|domain|, i requires 0 <= i < |domain| => assert domain[i] in domain; domain[i].n)
  }

  /** The linear map from one range to another. */
  function Stretch(x: real, oldMin: real, oldMax: real, newMin: real, newMax: real): real
    requires oldMax != oldMin
  {
    Share(x - oldMin, newMax - newMin, oldMax - oldMin) + newMin
  }

  function Share(a: real, k: real, b: real): real
    requires b != 0.0
  {
    a * k / b
  }

  /** convertRange, with the two-decimal rounding */
  function ConvertRange(x: real, oldMin: real, oldMax: real, newMin: real, newMax: real): real
    requires oldMax != oldMin
  {
    Fixed(Stretch(x, oldMin, oldMax, newMin, newMax), Two)
  }

  /** newRange: radii outside [1, 300] are squeezed into [1, 10]. */
  function NewRange(x: real, min: real, max: real): real
    requires max != min
  {
    if Squeezed(min, max) then ConvertRange(x, min, max, 1.0, 10.0)
    else ConvertRange(x, min, max, min, max)
  }

  lemma ScaleOrder(a: real, b: real, s: real)
    requires s > 0.0
    ensures a * s <= b * s <==> a <= b
  {
    if a <= b {
      assert (b - a) * s >= 0.0;
    } else {
      assert (a - b) * s > 0.0;
    }
  }

  lemma ShareMonotone(a: real, c: real, b: real, k: real)
    requires a <= c && b > 0.0 && k >= 0.0
    ensures Share(a, k, b) <= Share(c, k, b)
  {
    var p, q := a * k / b, c * k / b;
    assert p * b == a * k && q * b == c * k;
    assert a * k <= c * k;
    ScaleOrder(p, q, b);
  }

  lemma RoundedAtLeast(x: real, lo: int)
    requires lo > 0
    ensures lo as real <= Fixed(x, Two) <==> lo as real - 0.005 <= x
  {
    var u := x * 100.0;
    assert Fixed(x, Two) == Nearest(u) as real / 100.0;
    assert lo as real <= Fixed(x, Two) <==> lo * 100 <= Nearest(u);
  }

  lemma RoundedAtMost(x: real, hi: int)
    requires hi > 0
    ensures Fixed(x, Two) <= hi as real <==> x < hi as real + 0.005
  {
    var u := x * 100.0;
    assert Fixed(x, Two) == Nearest(u) as real / 100.0;
    assert Fixed(x, Two) <= hi as real <==> Nearest(u) <= hi * 100;
  }

  lemma StretchAtLeast(x: real, min: real, max: real, bound: real)
    requires min < max
    ensures bound <= Stretch(x, min, max, 1.0, 10.0) <==> (bound - 1.0) * (max - min) <= (x - min) * 9.0
  {
    var q := (x - min) * 9.0 / (max - min);
    assert q * (max - min) == (x - min) * 9.0;
    ScaleOrder(bound - 1.0, q, max - min);
  }

  lemma StretchItself(x: real, min: real, max: real)
    requires min < max
    ensures Stretch(x, min, max, min, max) == x
  {
    var q := (x - min) * (max - min) / (max - min);
    assert q == x - min;
  }

  predicate Squeezed(min: real, max: real) {
    min < 1.0 || max > 300.0
  }

  lemma RadiusAtLeast(x: real, min: real, max: real)
    requires min < max
    ensures 1.0 <= NewRange(x, min, max)
            <==> if Squeezed(min, max) then -0.005 * (max - min) <= (x - min) * 9.0 else 0.995 <= x
  {
    if Squeezed(min, max) {
      RoundedAtLeast(Stretch(x, min, max, 1.0, 10.0), 1);
      StretchAtLeast(x, min, max, 0.995);
    } else {
      StretchItself(x, min, max);
      RoundedAtLeast(x, 1);
    }
  }

  lemma RadiusAtMost(x: real, min: real, max: real)
    requires min < max
    ensures NewRange(x, min, max) <= 300.0
            <==> if Squeezed(min, max) then (x - min) * 9.0 < 299.005 * (max - min) else x < 300.005
  {
    if Squeezed(min, max) {
      RoundedAtMost(Stretch(x, min, max, 1.0, 10.0), 300);
      StretchAtLeast(x, min, max, 300.005);
    } else {
      StretchItself(x, min, max);
      RoundedAtMost(x, 300);
    }
  }

  /** The exact condition for a radius in [1, 300], for any number whatever. */
  lemma RadiusExactness(x: real, min: real, max: real)
    requires min < max
    ensures 1.0 <= NewRange(x, min, max) <= 300.0
            <==> if Squeezed(min, max)
                 then -0.005 * (max - min) <= (x - min) * 9.0 < 299.005 * (max - min)
                 else 0.995 <= x < 300.005
  {
    RadiusAtLeast(x, min, max);
    RadiusAtMost(x, min, max);
  }

  /** Radii keep the numbers as they are, or, squeezed, spread them evenly from 1 for the
      smallest to 10 for the largest, up to the rounding to two decimals. */
  lemma RadiusNear(x: real, min: real, max: real)
    requires min < max
    ensures var r := NewRange(x, min, max);
            if min < 1.0 || max > 300.0
            then -0.005 * (max - min) <= (r - 1.0) * (max - min) - (x - min) * 9.0 <= 0.005 * (max - min)
            else -0.005 <= r - x <= 0.005
    ensures min < 1.0 || max > 300.0 ==> NewRange(min, min, max) == 1.0 && NewRange(max, min, max) == 10.0
  {
    if Squeezed(min, max) {
      SqueezedNear(x, min, max);
      SqueezedEnds(min, max);
    } else {
      StretchItself(x, min, max);
      FixedNear(x, Two);
    }
  }

  lemma SqueezedNear(x: real, min: real, max: real)
    requires min < max && Squeezed(min, max)
    ensures -0.005 * (max - min) <= (NewRange(x, min, max) - 1.0) * (max - min) - (x - min) * 9.0 <= 0.005 * (max - min)
  {
    var q := (x - min) * 9.0 / (max - min);
    assert q * (max - min) == (x - min) * 9.0;
    var r := NewRange(x, min, max);
    assert r == Fixed(q + 1.0, Two);
    FixedNear(q + 1.0, Two);
    Spread(r - 1.0, q, max - min, (x - min) * 9.0);
  }

  lemma Spread(r: real, q: real, s: real, n: real)
    requires s > 0.0 && -0.005 <= r - q <= 0.005 && q * s == n
    ensures -0.005 * s <= r * s - n <= 0.005 * s
  {
    var d := r - q;
    Distribute(r, q, s);
    assert d * s == r * s - n;
    ScaleOrder(-0.005, d, s);
    ScaleOrder(d, 0.005, s);
  }

  lemma Distribute(a: real, b: real, s: real)
    ensures (a - b) * s == a * s - b * s
  {
  }

  lemma SqueezedEnds(min: real, max: real)
    requires min < max && Squeezed(min, max)
    ensures NewRange(min, min, max) == 1.0 && NewRange(max, min, max) == 10.0
  {
    NineShares(max - min);
    assert Stretch(min, min, max, 1.0, 10.0) == Two.FromUnits(100);
    assert Stretch(max, min, max, 1.0, 10.0) == Two.FromUnits(1000);
    FixedExact(100, Two);
    FixedExact(1000, Two);
  }

  lemma ShareTimes(a: real, k: real, b: real)
    requires b > 0.0
    ensures Share(a, k, b) * b == a * k
  {
    var q := a * k / b;
    assert q * b == a * k;
  }

  lemma NineShares(m: real)
    requires m > 0.0
    ensures Share(m, 9.0, m) == 9.0 && Share(0.0, 9.0, m) == 0.0
  {
    var q, z := Share(m, 9.0, m), Share(0.0, 9.0, m);
    ShareTimes(m, 9.0, m);
    ShareTimes(0.0, 9.0, m);
    ScaleOrder(q, 9.0, m);
    ScaleOrder(9.0, q, m);
    ScaleOrder(z, 0.0, m);
    ScaleOrder(0.0, z, m);
  }

  /** A larger number never gets a smaller radius, in or out of range. */
  lemma RadiusMonotone(x: real, y: real, min: real, max: real)
    requires min < max && x <= y
    ensures NewRange(x, min, max) <= NewRange(y, min, max)
  {
    var lo, hi := if Squeezed(min, max) then 1.0 else min, if Squeezed(min, max) then 10.0 else max;
    ShareMonotone(x - min, y - min, max - min, hi - lo);
    FixedMonotone(Stretch(x, min, max, lo, hi), Stretch(y, min, max, lo, hi), Two);
  }

  /** The radius of a feature: `newRange` takes the raw value, for which a missing one is
      the default 2 and any other is converted to a number. */
  function Radius(js: Runtime, v: Value, min: real, max: real): Option<real>
    requires max != min
  {
    if v.Missing? then Some(NewRange(2.0, min, max))
    else if js.Number(v).Some? then Some(NewRange(js.Number(v).value, min, max))
    else None
  }

  /** Features that contribute nothing to the domain have radii all the same: one without
      the column always a valid one unless radii are squeezed, a zero, false, null or empty
      text only if they are squeezed. */
  lemma FalsyRadius(js: Runtime, v: Value, min: real, max: real)
    requires min < max && !Truthy(v) && (v.Str? ==> js.textNumber("") == Some(0.0))
    ensures var r := Radius(js, v, min, max);
            && r.Some?
            && var x := if v.Missing? then 2.0 else 0.0;
               1.0 <= r.value <= 300.0
               <==> if Squeezed(min, max) then -0.005 * (max - min) <= (x - min) * 9.0 < 299.005 * (max - min)
                    else v.Missing?
  {
    RadiusExactness(2.0, min, max);
    RadiusExactness(0.0, min, max);
  }

  /** The extremes of a numeric domain of at least two values. */
  lemma DomainRange(js: Runtime, data: seq<Feature>, column: string)
    requires AllNumeric(js, data, column) && |Domain(js, data, column)| > 1
    ensures forall x <- Domain(js, data, column) :: x.Num?
    ensures var domain := Numbers(Domain(js, data, column));
            && MinOf(domain) < MaxOf(domain)
            && Num(MinOf(domain)) in Entries(js, data, column) && Num(MaxOf(domain)) in Entries(js, data, column)
            && forall x | Num(x) in Entries(js, data, column) :: MinOf(domain) <= x <= MaxOf(domain)
  {
    DomainMembers(js, data, column);
    var values := Domain(js, data, column);
    var domain := Numbers(values);
    Extremes(domain);
    assert values[0] in values && values[1] in values && Less(js, values[0], values[1]);
    assert domain[0] in domain && domain[1] in domain && domain[0] < domain[1];
    forall x
      ensures Num(x) in Entries(js, data, column) <==> x in domain
    {
      NumbersMembers(values, x);
    }
  }

  /** On a numeric domain of at least two values, every contributing value gets a
      radius in [1, 300], and a larger value never a smaller radius. */
  lemma RadiusBoundedMonotone(js: Runtime, keys: Feature -> seq<string>, data: seq<Feature>, column: string,
                              d: Feature, e: Feature)
    requires column != TRAVEL_TIME && NonZero(js, Str(column)).None?
    requires AllNumeric(js, data, column) && |Domain(js, data, column)| > 1
    requires d in data && e in data && Truthy(d.Get(column)) && Truthy(e.Get(column))
    requires js.Number(d.Get(column)).value <= js.Number(e.Get(column)).value
    ensures var domain := Domain(js, Reread(js, keys, data, column), column);
            && |domain| > 1 && (forall x <- domain :: x.Num?)
            && var min, max := MinOf(Numbers(domain)), MaxOf(Numbers(domain));
               && min < max
               && var r, s := Radius(js, d.Get(column), min, max), Radius(js, e.Get(column), min, max);
                  r.Some? && s.Some? && 1.0 <= r.value <= s.value <= 300.0
  {
    SameDomain(js, Reread(js, keys, data, column), data, column);
    DomainRange(js, data, column);
    EntriesMembers(js, data, column);
    var domain := Numbers(Domain(js, data, column));
    var min, max := MinOf(domain), MaxOf(domain);
    var x, y := js.Number(d.Get(column)).value, js.Number(e.Get(column)).value;
    assert Entry(js, column, d.Get(column)) == Num(x) && Entry(js, column, e.Get(column)) == Num(y);
    RadiusExactness(x, min, max);
    RadiusExactness(y, min, max);
    RadiusMonotone(x, y, min, max);
  }

  /** In the travel-time column the domain holds five-minute buckets but the radius is made
      of the seconds: with positive times in two buckets or more, the longest time always
      gets a radius above 300. */
  lemma TravelTimeTooLarge(js: Runtime, data: seq<Feature>, d: Feature)
    requires AllNumeric(js, data, TRAVEL_TIME) && |Domain(js, data, TRAVEL_TIME)| > 1
    requires d in data && Truthy(d.Get(TRAVEL_TIME))
    requires forall e <- data | Truthy(e.Get(TRAVEL_TIME)) ::
               0.0 < js.Number(e.Get(TRAVEL_TIME)).value <= js.Number(d.Get(TRAVEL_TIME)).value
    ensures forall x <- Domain(js, data, TRAVEL_TIME) :: x.Num?
    ensures var domain := Numbers(Domain(js, data, TRAVEL_TIME));
            var min, max := MinOf(domain), MaxOf(domain);
            min < max && var r := Radius(js, d.Get(TRAVEL_TIME), min, max); r.Some? && r.value > 300.0
  {
    DomainRange(js, data, TRAVEL_TIME);
    var domain := Numbers(Domain(js, data, TRAVEL_TIME));
    var min, max, m := MinOf(domain), MaxOf(domain), js.Number(d.Get(TRAVEL_TIME)).value;
    var first := BucketSource(js, data, min);
    var last := BucketSource(js, data, max);
    LongestTime(js.Number(first.Get(TRAVEL_TIME)).value, js.Number(last.Get(TRAVEL_TIME)).value, m);
    RadiusAtMost(m, min, max);
  }

  /** A row whose time falls into the bucket. */
  lemma BucketSource(js: Runtime, data: seq<Feature>, x: real) returns (e: Feature)
    requires AllNumeric(js, data, TRAVEL_TIME) && Num(x) in Entries(js, data, TRAVEL_TIME)
    ensures e in data && Truthy(e.Get(TRAVEL_TIME)) && js.Number(e.Get(TRAVEL_TIME)).Some?
    ensures x == (js.Number(e.Get(TRAVEL_TIME)).value / 300.0).Floor as real
  {
    EntriesMembers(js, data, TRAVEL_TIME);
    e :| e in data && Truthy(e.Get(TRAVEL_TIME)) && Num(x) == Entry(js, TRAVEL_TIME, e.Get(TRAVEL_TIME));
  }

  lemma LongestTime(first: real, last: real, m: real)
    requires 0.0 < first && last <= m && (first / 300.0).Floor < (last / 300.0).Floor
    ensures var min, max := (first / 300.0).Floor as real, (last / 300.0).Floor as real;
            && (m - min) * 9.0 >= 2700.0 * (max - min)
            && (min >= 1.0 ==> m >= 600.0)
  {
    var i, j := (first / 300.0).Floor, (last / 300.0).Floor;
    assert i >= 0 && j >= i + 1;
    assert m >= 300.0 * (j as real);
  }

  /** Rows of 400 and 700 seconds, in buckets 1 and 2, get the radii 400 and 700. */
  lemma TravelTimeRadii(js: Runtime, d: Feature, e: Feature)
    requires d.Get(TRAVEL_TIME) == Num(400.0) && e.Get(TRAVEL_TIME) == Num(700.0)
    ensures Domain(js, [d, e], TRAVEL_TIME) == [Num(1.0), Num(2.0)]
    ensures Radius(js, d.Get(TRAVEL_TIME), 1.0, 2.0) == Some(400.0)
    ensures Radius(js, e.Get(TRAVEL_TIME), 1.0, 2.0) == Some(700.0)
  {
    TwoBuckets(js, d, e);
    StretchItself(400.0, 1.0, 2.0);
    StretchItself(700.0, 1.0, 2.0);
    FixedExact(40000, Two);
    FixedExact(70000, Two);
  }

  lemma TwoBuckets(js: Runtime, d: Feature, e: Feature)
    requires d.Get(TRAVEL_TIME) == Num(400.0) && e.Get(TRAVEL_TIME) == Num(700.0)
    ensures Domain(js, [d, e], TRAVEL_TIME) == [Num(1.0), Num(2.0)]
  {
    var one, two := Num(1.0), Num(2.0);
    assert (400.0 / 300.0).Floor == 1 && (700.0 / 300.0).Floor == 2;
    assert Entry(js, TRAVEL_TIME, Num(400.0)) == one && Entry(js, TRAVEL_TIME, Num(700.0)) == two;
    assert [d, e][1..] == [e];
    assert Entries(js, [e], TRAVEL_TIME) == [two];
    assert Entries(js, [d, e], TRAVEL_TIME) == [one, two];
    SortTwo(js, one, two);
  }

  lemma SortTwo(js: Runtime, a: Value, b: Value)
    requires a.Num? && b.Num? && a.n < b.n
    ensures Distinct([a, b]) == [a, b] && Sort(js, [a, b]) == [a, b]
  {
    assert [a, b][..1] == [a] && [a][..0] == [];
    assert Distinct([a]) == [a];
    assert [a, b][1..] == [b] && [b][1..] == [];
    assert Sort(js, [b]) == [b];
  }

  lemma NumbersMembers(values: seq<Value>, x: real)
    requires forall v <- values :: v.Num?
    ensures Num(x) in values <==> x in Numbers(values)
  {
    if Num(x) in values {
      var i :| 0 <= i < |values| && values[i] == Num(x);
      assert Numbers(values)[i] == x;
    }
    if x in Numbers(values) {
      var i :| 0 <= i < |values| && Numbers(values)[i] == x;
      assert values[i] in values && values[i] == Num(x);
    }
  }
}
