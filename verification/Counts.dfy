/** The frequency counters: getPropertyValues, getKeyColumns, propertyCount and
    xyObjectByProperty, which count the same rows in different ways. */
module Counts {
  import opened JsValues
  import opened Features
  import opened Join

  datatype Bar = Bar(x: Value, y: nat)

  /** The values of a column, over the features that have it. */
  function ColumnValues(rows: seq<Feature>, column: string): seq<Value> {
    if rows == [] then []
    else if column in rows[0].properties then [rows[0].Get(column)] + ColumnValues(rows[1..], column)
    else ColumnValues(rows[1..], column)
  }

  /** Each value once, in order of first occurrence: the content of a JS Set. */
  function Distinct(s: seq<Value>): seq<Value> {
    if s == [] then []
    else
      var d := Distinct(s[..|s| - 1]);
      var v := s[|s| - 1];
      if v in d then d else d + [v]
  }

  /** One bar per distinct value, with its multiplicity. */
  function Tally(s: seq<Value>): seq<Bar> {
    BarsOf(Distinct(s), s)
  }

  /** The bars of the listed values, counted in `s`. */
  function BarsOf(order: seq<Value>, s: seq<Value>): seq<Bar> {
    seq(|order|, i requires 0 <= i < |order| => Bar(order[i], multiset(s)[order[i]]))
  }

  function SumY(bars: seq<Bar>): nat {
    if bars == [] then 0 else bars[0].y + SumY(bars[1..])
  }

  predicate NoRepeats<T(==)>(s: seq<T>) {
    forall i, j | 0 <= i < j < |s| :: s[i] != s[j]
  }

  lemma {:induction false} DistinctExact(s: seq<Value>)
    ensures NoRepeats(Distinct(s)) && forall v :: v in Distinct(s) <==> v in s
  {
    if s != [] {
      DistinctExact(s[..|s| - 1]);
      assert s == s[..|s| - 1] + [s[|s| - 1]];
    }
  }

  /** Dropping repeats shortens a list unless it has none. */
  lemma {:induction false} DistinctLength(s: seq<Value>)
    ensures |Distinct(s)| <= |s|
    ensures |Distinct(s)| == |s| <==> NoRepeats(s)
    ensures NoRepeats(s) ==> Distinct(s) == s
  {
    if s != [] {
      var init, v := s[..|s| - 1], s[|s| - 1];
      DistinctLength(init);
      DistinctExact(init);
      assert s == init + [v];
      assert v in init ==> !NoRepeats(s) by {
        if v in init {
          var i :| 0 <= i < |init| && init[i] == v;
          assert s[i] == s[|s| - 1];
        }
      }
      assert NoRepeats(s) ==> NoRepeats(init);
    }
  }

  lemma {:induction false} MultiplicityFold(s: seq<Value>, d: seq<Value>)
    requires NoRepeats(d) && forall v <- s :: v in d
    decreases |d|
    ensures SumY(BarsOf(d, s)) == |s|
  {
    if d == [] {
      SomeMember(s);
    } else {
      var rest := Others(s, d[0]);
      OthersCounts(s, d[0]);
      assert forall v <- rest :: v in d[1..];
      MultiplicityFold(rest, d[1..]);
      BarsOfRest(d, s, rest);
    }
  }

  lemma BarsOfRest(d: seq<Value>, s: seq<Value>, rest: seq<Value>)
    requires d != [] && NoRepeats(d)
    requires forall y :: multiset(rest)[y] == if y == d[0] then 0 else multiset(s)[y]
    ensures BarsOf(d, s) == [Bar(d[0], multiset(s)[d[0]])] + BarsOf(d[1..], rest)
    ensures BarsOf(d, s)[1..] == BarsOf(d[1..], rest)
  {
  }

  function Others(s: seq<Value>, x: Value): seq<Value> {
    if s == [] then [] else (if s[0] != x then [s[0]] else []) + Others(s[1..], x)
  }

  lemma {:induction false} OthersCounts(s: seq<Value>, x: Value)
    ensures forall y :: multiset(Others(s, x))[y] == if y == x then 0 else multiset(s)[y]
    ensures |s| == multiset(s)[x] + |Others(s, x)|
    ensures forall v <- Others(s, x) :: v in s && v != x
  {
    if s != [] {
      OthersCounts(s[1..], x);
      assert s == [s[0]] + s[1..];
    }
  }

  /** The bars of a tally account for every value exactly once. */
  lemma TallyTotal(s: seq<Value>)
    ensures SumY(Tally(s)) == |s|
  {
    DistinctExact(s);
    MultiplicityFold(s, Distinct(s));
  }

  // ---------------------------------------------------------------- getPropertyValues, getKeyColumns

  method GetPropertyValues(data: seq<Feature>, property: string) returns (values: seq<Value>)
    ensures values == Distinct(ColumnValues(data, property))
  {
    values := [];
    for i := 0 to |data|
      invariant values == Distinct(ColumnValues(data[..i], property))
    {
      assert data[..i + 1] == data[..i] + [data[i]];
      AddedValue(data[..i], data[i], property);
      if property in data[i].properties && data[i].Get(property) !in values {
        values := values + [data[i].Get(property)];
      }
    }
    assert data[..|data|] == data;
  }

  lemma ColumnValuesFrom(rows: seq<Feature>, i: nat, column: string)
    requires i < |rows|
    ensures ColumnValues(rows[i..], column)
            == if column in rows[i].properties then [rows[i].Get(column)] + ColumnValues(rows[i + 1..], column)
               else ColumnValues(rows[i + 1..], column)
  {
    assert rows[i..][0] == rows[i] && rows[i..][1..] == rows[i + 1..];
  }

  lemma {:induction false} ColumnValuesLast(rows: seq<Feature>, column: string)
    requires rows != []
    ensures var init, d := rows[..|rows| - 1], rows[|rows| - 1];
            ColumnValues(rows, column)
            == ColumnValues(init, column) + if column in d.properties then [d.Get(column)] else []
  {
    if |rows| > 1 {
      ColumnValuesLast(rows[1..], column);
      assert rows[1..][..|rows| - 2] == rows[..|rows| - 1][1..];
    }
  }

  /** The distinct values of every column some row has. */
  ghost predicate Collects(all: map<string, seq<Value>>, rows: seq<Feature>) {
    && (forall c :: c in all <==> ColumnValues(rows, c) != [])
    && (forall c <- all :: all[c] == Distinct(ColumnValues(rows, c)))
  }

  /** getPropertyValues without a property. */
  method GetAllPropertyValues(data: seq<Feature>) returns (all: map<string, seq<Value>>)
    ensures Collects(all, data)
  {
    all := map[];
    for i := 0 to |data|
      invariant Collects(all, data[..i])
    {
      assert data[..i + 1] == data[..i] + [data[i]];
      all := AddRow(all, data[..i], data[i]);
    }
    assert data[..|data|] == data;
  }

  /** The columns in `done` already count the values of `d`. */
  ghost predicate Partly(all: map<string, seq<Value>>, rows: seq<Feature>, d: Feature, done: set<string>) {
    && (forall c :: c in all <==> ColumnValues(rows, c) != [] || c in done)
    && (forall c <- all :: all[c] == Distinct(ColumnValues(if c in done then rows + [d] else rows, c)))
  }

  function AddTo(all: map<string, seq<Value>>, column: string, v: Value): map<string, seq<Value>> {
    if column !in all then all[column := [v]]
    else if v in all[column] then all
    else all[column := all[column] + [v]]
  }

  lemma AddToStep(all: map<string, seq<Value>>, rows: seq<Feature>, d: Feature, done: set<string>, each: string)
    requires Partly(all, rows, d, done) && each in d.properties && each !in done
    ensures Partly(AddTo(all, each, d.Get(each)), rows, d, done + {each})
  {
    AddedValue(rows, d, each);
  }

  /** The inner loop: every value of one row goes into the set of its column. */
  method AddRow(all: map<string, seq<Value>>, ghost rows: seq<Feature>, d: Feature)
    returns (all': map<string, seq<Value>>)
    requires Collects(all, rows)
    ensures Collects(all', rows + [d])
  {
    all' := all;
    var left := d.properties.Keys;
    while left != {}
      invariant left <= d.properties.Keys
      invariant Partly(all', rows, d, d.properties.Keys - left)
      decreases |left|
    {
      var each :| each in left;
      AddToStep(all', rows, d, d.properties.Keys - left, each);
      all' := AddTo(all', each, d.Get(each));
      assert d.properties.Keys - left + {each} == d.properties.Keys - (left - {each});
      left := left - {each};
    }
    forall c
      ensures c in all' <==> ColumnValues(rows + [d], c) != []
      ensures c in all' ==> all'[c] == Distinct(ColumnValues(rows + [d], c))
    {
      AddedValue(rows, d, c);
    }
  }

  lemma AddedValue(rows: seq<Feature>, d: Feature, column: string)
    ensures var old', now := ColumnValues(rows, column), ColumnValues(rows + [d], column);
            if column !in d.properties then now == old'
            else
              && now == old' + [d.Get(column)]
              && Distinct(now) == if d.Get(column) in Distinct(old') then Distinct(old')
                                  else Distinct(old') + [d.Get(column)]
  {
    ColumnValuesLast(rows + [d], column);
    assert (rows + [d])[..|rows + [d]| - 1] == rows;
    DistinctStep(ColumnValues(rows, column), d.Get(column));
  }

  lemma {:induction false} NoValues(rows: seq<Feature>, column: string)
    ensures ColumnValues(rows, column) == [] <==> forall d <- rows :: column !in d.properties
  {
    if rows != [] {
      NoValues(rows[1..], column);
      assert rows == [rows[0]] + rows[1..];
    }
  }

  /** getKeyColumns: the columns with as many distinct values as there are features, which
      are those that every feature has and no two features share a value of. */
  method GetKeyColumns(data: seq<Feature>) returns (keys: Option<set<string>>)
    ensures keys.Some? <==> exists c: string :: data != [] && IsKey(data, c)
    ensures keys.Some? ==> forall c :: c in keys.value <==> data != [] && IsKey(data, c)
  {
    var all := GetAllPropertyValues(data);
    var found := set column | column in all && |all[column]| == |data|;
    forall c
      ensures c in found <==> data != [] && IsKey(data, c)
    {
      KeyColumnMeaning(data, c);
      NoValues(data, c);
      if data != [] {
        assert data[0] in data;
      }
    }
    return if found == {} then None else Some(found);
  }

  predicate IsKey(data: seq<Feature>, column: string) {
    (forall d <- data :: column in d.properties) && UniqueKeys(data, column)
  }

  lemma {:induction false} ColumnValuesLength(data: seq<Feature>, column: string)
    ensures |ColumnValues(data, column)| <= |data|
    ensures |ColumnValues(data, column)| == |data| <==> forall d <- data :: column in d.properties
    ensures |ColumnValues(data, column)| == |data| ==>
              forall i | 0 <= i < |data| :: ColumnValues(data, column)[i] == data[i].Get(column)
  {
    if data != [] {
      ColumnValuesLength(data[1..], column);
      assert data == [data[0]] + data[1..];
    }
  }

  /** A key column is one that every feature has and no two features share a value of. */
  lemma KeyColumnMeaning(data: seq<Feature>, column: string)
    ensures |Distinct(ColumnValues(data, column))| == |data|
            <==> IsKey(data, column)
  {
    ColumnValuesLength(data, column);
    DistinctLength(ColumnValues(data, column));
  }

  /** What getKeyColumns is for: joining on a key column, the selection can be
      applied to the data or to the joined result alike. */
  lemma KeyColumnPushdown(js: Runtime, g: Geography, rows: seq<Feature>, s: Selected)
    requires |Distinct(ColumnValues(rows, g.dataColumn))| == |rows|
    requires rows != [] && Truthy(rows[0].Get(g.dataColumn))
    requires Keep(js, rows, BySelection(s)) != [] && Truthy(Keep(js, rows, BySelection(s))[0].Get(g.dataColumn))
    requires g.features != [] && Truthy(g.features[0].Get(g.geoColumn))
    ensures Keep(js, Locate(g, Some(rows)), BySelection(s))
            == Locate(g, Some(Keep(js, rows, BySelection(s))))
  {
    KeyColumnMeaning(rows, g.dataColumn);
    PushdownWithUniqueKeys(js, g, rows, s);
  }

  // ---------------------------------------------------------------- propertyCount

  method IndexOf(list: seq<Value>, v: Value) returns (i: int)
    ensures v !in list ==> i == -1
    ensures v in list ==> 0 <= i < |list| && list[i] == v && v !in list[..i]
  {
    for k := 0 to |list|
      invariant v !in list[..k]
    {
      if list[k] == v {
        return k;
      }
    }
    return -1;
  }

  lemma {:induction false} DistinctPrefix(s: seq<Value>, n: nat)
    requires n <= |s|
    ensures Distinct(s[..n]) <= Distinct(s)
  {
    if n < |s| {
      var init := s[..|s| - 1];
      DistinctPrefix(init, n);
      assert init[..n] == s[..n];
    } else {
      assert s[..n] == s;
    }
  }

  lemma DistinctStep(s: seq<Value>, v: Value)
    ensures Distinct(s + [v]) == if v in Distinct(s) then Distinct(s) else Distinct(s) + [v]
  {
    assert (s + [v])[..|s + [v]| - 1] == s;
  }

  lemma TallyStep(s: seq<Value>, v: Value, i: nat)
    requires i <= |Distinct(s)|
    requires i < |Distinct(s)| ==> Distinct(s)[i] == v
    requires i == |Distinct(s)| ==> v !in Distinct(s)
    ensures Tally(s + [v]) == if i < |Distinct(s)| then Tally(s)[i := Bar(v, Tally(s)[i].y + 1)]
                              else Tally(s) + [Bar(v, 1)]
  {
    DistinctExact(s);
    DistinctStep(s, v);
    BarsStep(Distinct(s), s, v, i);
  }

  lemma BarsStep(d: seq<Value>, s: seq<Value>, v: Value, i: nat)
    requires NoRepeats(d) && i <= |d|
    requires i < |d| ==> d[i] == v
    requires i == |d| ==> v !in d && v !in s
    ensures i < |d| ==> BarsOf(d, s + [v]) == BarsOf(d, s)[i := Bar(v, BarsOf(d, s)[i].y + 1)]
    ensures i == |d| ==> BarsOf(d + [v], s + [v]) == BarsOf(d, s) + [Bar(v, 1)]
  {
    assert multiset(s + [v]) == multiset(s) + multiset{v};
    if i == |d| {
      assert v !in multiset(s);
    }
  }

  lemma Shift<T>(seen: seq<T>, v: T, rest: seq<T>)
    ensures seen + ([v] + rest) == (seen + [v]) + rest
  {
  }

  /** One value of propertyCount's loop: `seen` are the values counted so far. */
  method CountValue(list: seq<Value>, bars: seq<Bar>, v: Value, ghost all: seq<Value>, ghost seen: seq<Value>)
    returns (bars': seq<Bar>)
    requires list == Distinct(all) && bars == Tally(seen) && seen + [v] <= all
    ensures bars' == Tally(seen + [v])
  {
    ghost var n := |seen|;
    assert all[..n] == seen && all[..n + 1] == seen + [v] && v == (seen + [v])[n];
    DistinctExact(all);
    DistinctExact(seen);
    DistinctPrefix(all, n);
    DistinctPrefix(all, n + 1);
    assert v in all;
    assert (seen + [v])[..n] == seen;
    var i := IndexOf(list, v);
    ghost var d := Distinct(seen);
    if v in d {
      ghost var j :| 0 <= j < |d| && d[j] == v;
      assert list[j] == v;
    } else {
      assert Distinct(seen + [v]) == d + [v];
      assert list[|d|] == v;
    }
    TallyStep(seen, v, i);
    if i < |bars| && bars[i].x == v {
      bars' := bars[i := Bar(v, bars[i].y + 1)];
    } else {
      bars' := bars + [Bar(v, 1)];
    }
  }

  /** propertyCount without a list: counts land at the value's index in the list of
      distinct values, and the array never has a hole. */
  method PropertyCount(data: seq<Feature>, key: string) returns (result: Option<seq<Bar>>)
    ensures result == if key == "" then None else Some(Tally(ColumnValues(data, key)))
  {
    if key == "" {
      return None;
    }
    var list := GetPropertyValues(data, key);
    ghost var all := ColumnValues(data, key);
    ghost var seen: seq<Value> := [];
    var bars: seq<Bar> := [];
    for k := 0 to |data|
      invariant seen + ColumnValues(data[k..], key) == all
      invariant bars == Tally(seen)
    {
      ColumnValuesFrom(data, k, key);
      if key in data[k].properties {
        var v := data[k].Get(key);
        Shift(seen, v, ColumnValues(data[k + 1..], key));
        bars := CountValue(list, bars, v, all, seen);
        seen := seen + [v];
      }
    }
    assert seen + [] == seen;
    return Some(bars);
  }

  // ---------------------------------------------------------------- xyObjectByProperty

  /** The map key a value is counted under: numeric text becomes a number. */
  function Key(js: Runtime, v: Value): Value {
    if js.IsStringNumeric(v) then Num(js.textNumber(v.s).value) else v
  }

  predicate Present(v: Value) {
    !v.Null? && !v.Missing?
  }

  function PlotKeys(js: Runtime, rows: seq<Feature>, column: string): seq<Value> {
    if rows == [] then []
    else if Present(rows[0].Get(column)) then [Key(js, rows[0].Get(column))] + PlotKeys(js, rows[1..], column)
    else PlotKeys(js, rows[1..], column)
  }

  /** The keys counted when nulls are not left out. */
  function AllKeys(js: Runtime, rows: seq<Feature>, column: string): seq<Value> {
    if rows == [] then [] else [Key(js, rows[0].Get(column))] + AllKeys(js, rows[1..], column)
  }

  function MapKeys(js: Runtime, rows: seq<Feature>, column: string, noNulls: bool): seq<Value> {
    if noNulls then PlotKeys(js, rows, column) else AllKeys(js, rows, column)
  }

  predicate TextLess(a: string, b: string) {
    if b == "" then false
    else if a == "" then true
    else a[0] < b[0] || (a[0] == b[0] && TextLess(a[1..], b[1..]))
  }

  /** JavaScript `a < b` */
  predicate Less(js: Runtime, a: Value, b: Value) {
    if a.Str? && b.Str? then TextLess(a.s, b.s)
    else
      var x, y := js.Number(a), js.Number(b);
      x.Some? && y.Some? && x.value < y.value
  }

  function Insert(js: Runtime, v: Value, s: seq<Value>): seq<Value> {
    if s == [] || Less(js, v, s[0]) then [v] + s else [s[0]] + Insert(js, v, s[1..])
  }

  /** `sort(ascending)` of distinct values. */
  function Sort(js: Runtime, s: seq<Value>): seq<Value> {
    if s == [] then [] else Insert(js, s[0], Sort(js, s[1..]))
  }

  function SortedBars(js: Runtime, s: seq<Value>): seq<Bar> {
    BarsOf(Sort(js, Distinct(s)), s)
  }

  /** The bars of xyObjectByProperty. */
  function Chart(js: Runtime, rows: seq<Feature>, column: string, noNulls: bool): seq<Bar> {
    SortedBars(js, MapKeys(js, rows, column, noNulls))
  }

  lemma MapKeysFrom(js: Runtime, rows: seq<Feature>, i: nat, column: string, noNulls: bool)
    requires i < |rows|
    ensures var v := rows[i].Get(column);
            MapKeys(js, rows[i..], column, noNulls)
            == if noNulls && !Present(v) then MapKeys(js, rows[i + 1..], column, noNulls)
               else [Key(js, v)] + MapKeys(js, rows[i + 1..], column, noNulls)
  {
    assert rows[i..][0] == rows[i] && rows[i..][1..] == rows[i + 1..];
  }

  /** A JS Map of counts: its keys in insertion order and their counts. */
  ghost predicate CountsOf(order: seq<Value>, counts: map<Value, nat>, seen: seq<Value>) {
    && order == Distinct(seen)
    && (forall v :: v in counts <==> v in multiset(seen))
    && (forall v <- counts :: counts[v] == multiset(seen)[v])
  }

  method CountKey(order: seq<Value>, counts: map<Value, nat>, value: Value, ghost seen: seq<Value>)
    returns (order': seq<Value>, counts': map<Value, nat>)
    requires CountsOf(order, counts, seen)
    ensures CountsOf(order', counts', seen + [value])
  {
    assert (seen + [value])[..|seen + [value]| - 1] == seen;
    assert multiset(seen + [value]) == multiset(seen) + multiset{value};
    DistinctExact(seen);
    order', counts' := order, counts;
    if value in counts {
      counts' := counts[value := counts[value] + 1];
    } else {
      counts' := counts[value := 1];
      order' := order + [value];
    }
  }

  method XyObjectByProperty(js: Runtime, data: seq<Feature>, property: string, noNulls: bool := true)
    returns (bars: Option<seq<Bar>>)
    ensures var keys := MapKeys(js, data, property, noNulls);
            bars == if property == "" || keys == [] then None else Some(Chart(js, data, property, noNulls))
  {
    if property == "" {
      return None;
    }
    var order: seq<Value> := [];
    var counts: map<Value, nat> := map[];
    ghost var seen: seq<Value> := [];
    for i := 0 to |data|
      invariant seen + MapKeys(js, data[i..], property, noNulls) == MapKeys(js, data, property, noNulls)
      invariant CountsOf(order, counts, seen)
    {
      MapKeysFrom(js, data, i, property, noNulls);
      var value := data[i].Get(property);
      if !noNulls || Present(value) {
        value := Key(js, value);
        Shift(seen, value, MapKeys(js, data[i + 1..], property, noNulls));
        order, counts := CountKey(order, counts, value, seen);
        seen := seen + [value];
      }
    }
    assert seen + [] == seen;
    DistinctExact(seen);
    if order == [] {
      SomeMember(seen);
      return None;
    }
    assert order[0] in seen;
    var sortedArray := Sort(js, order);
    SortPermutes(js, order);
    var result := Pairs(sortedArray, counts, seen);
    return Some(result);
  }

  /** The closing `map` over the sorted keys. */
  method Pairs(keys: seq<Value>, counts: map<Value, nat>, ghost seen: seq<Value>) returns (bars: seq<Bar>)
    requires forall k <- keys :: k in counts && counts[k] == multiset(seen)[k]
    ensures bars == BarsOf(keys, seen)
  {
    bars := [];
    for i := 0 to |keys|
      invariant bars == BarsOf(keys[..i], seen)
    {
      bars := bars + [Bar(keys[i], counts[keys[i]])];
    }
    assert keys[..|keys|] == keys;
  }

  lemma {:induction false} InsertPermutes(js: Runtime, v: Value, s: seq<Value>)
    ensures multiset(Insert(js, v, s)) == multiset(s) + multiset{v}
  {
    if s != [] && !Less(js, v, s[0]) {
      InsertPermutes(js, v, s[1..]);
      assert s == [s[0]] + s[1..];
    }
  }

  lemma {:induction false} SortPermutes(js: Runtime, s: seq<Value>)
    ensures multiset(Sort(js, s)) == multiset(s)
    ensures forall v :: v in Sort(js, s) <==> v in s
  {
    if s != [] {
      SortPermutes(js, s[1..]);
      InsertPermutes(js, s[0], Sort(js, s[1..]));
      assert s == [s[0]] + s[1..];
    }
    assert forall v :: v in Sort(js, s) <==> v in multiset(Sort(js, s));
  }

  // ---------------------------------------------------------------- order

  /** Values JavaScript can put in a total order: all numbers or all texts. */
  predicate Homogeneous(s: seq<Value>) {
    (forall v <- s :: v.Num?) || (forall v <- s :: v.Str?)
  }

  predicate Ascending(js: Runtime, s: seq<Value>) {
    forall i, j | 0 <= i < j < |s| :: Less(js, s[i], s[j])
  }

  lemma {:induction false} TextOrder(a: string, b: string, c: string)
    ensures TextLess(a, b) && TextLess(b, c) ==> TextLess(a, c)
    ensures a == b || TextLess(a, b) || TextLess(b, a)
    ensures !(TextLess(a, b) && TextLess(b, a))
  {
    if a != "" && b != "" {
      TextOrder(a[1..], b[1..], if c == "" then "" else c[1..]);
      assert a == [a[0]] + a[1..] && b == [b[0]] + b[1..];
    }
  }

  lemma LessIsOrder(js: Runtime, a: Value, b: Value, c: Value)
    requires Homogeneous([a, b, c])
    ensures Less(js, a, b) && Less(js, b, c) ==> Less(js, a, c)
    ensures a == b || Less(js, a, b) || Less(js, b, a)
    ensures !(Less(js, a, b) && Less(js, b, a))
  {
    assert a in [a, b, c] && b in [a, b, c] && c in [a, b, c];
    if a.Str? {
      TextOrder(a.s, b.s, c.s);
    }
  }

  lemma {:induction false} InsertAscending(js: Runtime, v: Value, s: seq<Value>)
    requires Homogeneous([v] + s) && v !in s && Ascending(js, s)
    ensures Ascending(js, Insert(js, v, s))
  {
    assert v in [v] + s && forall x <- s :: x in [v] + s;
    if s != [] {
      if Less(js, v, s[0]) {
        forall x | x in s
          ensures Less(js, v, x)
        {
          LessIsOrder(js, v, s[0], x);
        }
      } else {
        var rest := Insert(js, v, s[1..]);
        InsertAscending(js, v, s[1..]);
        InsertPermutes(js, v, s[1..]);
        LessIsOrder(js, v, s[0], v);
        forall x | x in rest
          ensures Less(js, s[0], x)
        {
          assert x in multiset(rest);
        }
      }
    }
  }

  lemma {:induction false} SortAscending(js: Runtime, s: seq<Value>)
    requires Homogeneous(s) && NoRepeats(s)
    ensures Ascending(js, Sort(js, s))
  {
    if s != [] {
      SortAscending(js, s[1..]);
      SortPermutes(js, s[1..]);
      var rest := Sort(js, s[1..]);
      assert forall x <- [s[0]] + rest :: x in s;
      InsertAscending(js, s[0], rest);
    }
  }

  /** There is only one ascending arrangement, so any sorting routine gives this one. */
  lemma {:induction false} AscendingIsUnique(js: Runtime, a: seq<Value>, b: seq<Value>)
    requires Homogeneous(a) && Ascending(js, a) && Ascending(js, b)
    requires forall v :: v in a <==> v in b
    ensures a == b
  {
    if a == [] {
      SomeMember(b);
    } else {
      assert a[0] in b && b != [] && b[0] in a;
      LessIsOrder(js, a[0], b[0], a[0]);
      assert a[0] == b[0];
      forall v
        ensures v in a[1..] <==> v in b[1..]
      {
        if v in a[1..] || v in b[1..] {
          assert v in a && v in b;
          LessIsOrder(js, v, v, v);
        }
        assert a == [a[0]] + a[1..] && b == [b[0]] + b[1..];
      }
      AscendingIsUnique(js, a[1..], b[1..]);
    }
  }

  // ---------------------------------------------------------------- the two counters

  lemma BarsOfMembers(order: seq<Value>, s: seq<Value>)
    ensures forall b :: b in BarsOf(order, s) <==> b.x in order && b.y == multiset(s)[b.x]
    ensures Xs(BarsOf(order, s)) == order
  {
    forall b: Bar | b.x in order && b.y == multiset(s)[b.x]
      ensures b in BarsOf(order, s)
    {
      var i :| 0 <= i < |order| && order[i] == b.x;
      assert BarsOf(order, s)[i] == b;
    }
  }

  lemma {:induction false} SameKeys(js: Runtime, rows: seq<Feature>, column: string)
    requires forall v <- ColumnValues(rows, column) :: Present(v) && !js.IsStringNumeric(v)
    ensures PlotKeys(js, rows, column) == ColumnValues(rows, column)
  {
    if rows != [] {
      assert forall v <- ColumnValues(rows[1..], column) :: v in ColumnValues(rows, column);
      SameKeys(js, rows[1..], column);
      if column in rows[0].properties {
        assert ColumnValues(rows, column)[0] == rows[0].Get(column);
      }
    }
  }

  lemma {:induction false} PlotKeysShape(js: Runtime, rows: seq<Feature>, column: string)
    ensures forall k <- PlotKeys(js, rows, column) :: Present(k) && !js.IsStringNumeric(k)
  {
    if rows != [] {
      PlotKeysShape(js, rows[1..], column);
    }
  }

  lemma TallyMembers(s: seq<Value>)
    ensures forall b :: b in Tally(s) <==> b.x in s && b.y == multiset(s)[b.x]
    ensures Xs(Tally(s)) == Distinct(s)
  {
    DistinctExact(s);
    BarsOfMembers(Distinct(s), s);
  }

  lemma SortedBarsMembers(js: Runtime, s: seq<Value>)
    ensures forall b :: b in SortedBars(js, s) <==> b.x in s && b.y == multiset(s)[b.x]
    ensures Xs(SortedBars(js, s)) == Sort(js, Distinct(s))
    ensures NoRepeats(Xs(SortedBars(js, s)))
  {
    DistinctExact(s);
    SortPermutes(js, Distinct(s));
    SameMembersNoRepeats(Distinct(s), Sort(js, Distinct(s)));
    BarsOfMembers(Sort(js, Distinct(s)), s);
  }

  lemma SameMembersNoRepeats(a: seq<Value>, b: seq<Value>)
    requires NoRepeats(a) && multiset(a) == multiset(b)
    ensures NoRepeats(b)
  {
    forall i, j | 0 <= i < j < |b|
      ensures b[i] != b[j]
    {
      if b[i] == b[j] {
        RepeatCount(b, i, j);
        SingleCount(a, b[i]);
      }
    }
  }

  lemma RepeatCount(s: seq<Value>, i: nat, j: nat)
    requires i < j < |s| && s[i] == s[j]
    ensures multiset(s)[s[i]] >= 2
  {
    assert s == s[..j] + s[j..];
    assert s[i] == s[..j][i] && s[..j][i] in s[..j];
    assert s[j] == s[j..][0] && s[j..][0] in s[j..];
  }

  lemma {:induction false} SingleCount(s: seq<Value>, v: Value)
    requires NoRepeats(s)
    ensures multiset(s)[v] <= 1
  {
    if s != [] {
      SingleCount(s[1..], v);
      assert s == [s[0]] + s[1..];
      assert s[0] !in s[1..];
      assert multiset(s[1..])[s[0]] == 0;
    }
  }

  /** No value of the column is null or a numeric text. */
  predicate PlainColumn(js: Runtime, rows: seq<Feature>, column: string) {
    forall v <- ColumnValues(rows, column) :: Present(v) && !js.IsStringNumeric(v)
  }

  ghost predicate SameBars(a: seq<Bar>, b: seq<Bar>) {
    forall bar :: bar in a <==> bar in b
  }

  /** propertyCount and xyObjectByProperty give the same bars exactly when the column
      holds no null and no numeric text. */
  lemma CountersAgree(js: Runtime, rows: seq<Feature>, column: string)
    ensures SameBars(Tally(ColumnValues(rows, column)), SortedBars(js, PlotKeys(js, rows, column)))
            <==> PlainColumn(js, rows, column)
  {
    var values, keys := ColumnValues(rows, column), PlotKeys(js, rows, column);
    TallyMembers(values);
    SortedBarsMembers(js, keys);
    PlotKeysShape(js, rows, column);
    if PlainColumn(js, rows, column) {
      SameKeys(js, rows, column);
    } else {
      var v :| v in values && !(Present(v) && !js.IsStringNumeric(v));
      var b := Bar(v, multiset(values)[v]);
      assert b in Tally(values) && b !in SortedBars(js, keys);
    }
  }

  /** On such a column of one kind the chart lists propertyCount's bars in strictly
      ascending order, and their heights add up to the rows that have the column. */
  lemma ChartIsSortedCount(js: Runtime, rows: seq<Feature>, column: string)
    requires PlainColumn(js, rows, column) && Homogeneous(ColumnValues(rows, column))
    ensures var plain := Tally(ColumnValues(rows, column));
            var xy := SortedBars(js, PlotKeys(js, rows, column));
            && SameBars(plain, xy)
            && multiset(Xs(xy)) == multiset(Xs(plain)) && Ascending(js, Xs(xy))
            && SumY(xy) == SumY(plain) == |ColumnValues(rows, column)|
  {
    var values := ColumnValues(rows, column);
    CountersAgree(js, rows, column);
    SameKeys(js, rows, column);
    DistinctExact(values);
    SortPermutes(js, Distinct(values));
    SortAscending(js, Distinct(values));
    SortedBarsMembers(js, values);
    TallyMembers(values);
    TallyTotal(values);
    ChartTotal(js, values);
  }

  /** The heights of a chart add up to the values plotted, of whatever kind. */
  lemma ChartTotal(js: Runtime, s: seq<Value>)
    ensures SumY(SortedBars(js, s)) == |s|
  {
    DistinctExact(s);
    SortPermutes(js, Distinct(s));
    SameMembersNoRepeats(Distinct(s), Sort(js, Distinct(s)));
    MultiplicityFold(s, Sort(js, Distinct(s)));
  }

  function Xs(bars: seq<Bar>): seq<Value> {
    seq(|bars|, i requires 0 <= i < |bars| => bars[i].x)
  }

  // ---------------------------------------------------------------- what a bar counts

  /** The rows counted at `x`: those whose value it is and, for a number, those with a
      text, other than white space, that reads as it; such a text is never counted as itself. */
  function CountedAt(js: Runtime, column: string, noNulls: bool, x: Value): Feature -> bool {
    (d: Feature) => CountsAt(js, d.Get(column), noNulls, x)
  }

  predicate CountsAt(js: Runtime, v: Value, noNulls: bool, x: Value) {
    if v.Str? && js.textNumber(v.s).Some? && exists c <- v.s :: !Space(c)
    then x.Num? && js.textNumber(v.s) == Some(x.n)
    else v == x && !(noNulls && (v.Null? || v.Missing?))
  }

  lemma CountsKey(js: Runtime, v: Value, noNulls: bool, x: Value)
    ensures CountsAt(js, v, noNulls, x) <==> !(noNulls && !Present(v)) && Key(js, v) == x
  {
    if js.IsStringNumeric(v) {
      assert js.textNumber(v.s) == Some(js.textNumber(v.s).value);
    }
  }

  /** Exactly the bars of the chart: there is one at `x` of height `n` if and only if `n`
      rows, and at least one, are counted there. */
  lemma ChartMeaning(js: Runtime, rows: seq<Feature>, column: string, noNulls: bool, x: Value, n: nat)
    ensures Bar(x, n) in Chart(js, rows, column, noNulls)
            <==> n > 0 && n == |Where(CountedAt(js, column, noNulls, x), rows)|
  {
    var keys := MapKeys(js, rows, column, noNulls);
    SortedBarsMembers(js, keys);
    KeyCount(js, rows, column, noNulls, x);
    assert x in keys <==> multiset(keys)[x] > 0;
  }

  lemma {:induction false} KeyCount(js: Runtime, rows: seq<Feature>, column: string, noNulls: bool, x: Value)
    ensures multiset(MapKeys(js, rows, column, noNulls))[x] == |Where(CountedAt(js, column, noNulls, x), rows)|
  {
    if rows != [] {
      KeyCount(js, rows[1..], column, noNulls, x);
      var v, rest := rows[0].Get(column), MapKeys(js, rows[1..], column, noNulls);
      CountsKey(js, v, noNulls, x);
      if !(noNulls && !Present(v)) {
        assert MapKeys(js, rows, column, noNulls) == [Key(js, v)] + rest;
        assert multiset([Key(js, v)] + rest) == multiset([Key(js, v)]) + multiset(rest);
      }
    }
  }

  /** Exactly the bars of propertyCount: a value with the number of rows that have the
      column and hold it. */
  lemma TallyMeaning(rows: seq<Feature>, column: string, x: Value, n: nat)
    ensures Bar(x, n) in Tally(ColumnValues(rows, column))
            <==> n > 0 && n == |Where(Holding(column, x), rows)|
  {
    TallyMembers(ColumnValues(rows, column));
    ValueCount(rows, column, x);
    assert x in ColumnValues(rows, column) <==> multiset(ColumnValues(rows, column))[x] > 0;
  }

  function Holding(column: string, x: Value): Feature -> bool {
    (d: Feature) => column in d.properties && d.properties[column] == x
  }

  lemma {:induction false} ValueCount(rows: seq<Feature>, column: string, x: Value)
    ensures multiset(ColumnValues(rows, column))[x] == |Where(Holding(column, x), rows)|
  {
    if rows != [] {
      ValueCount(rows[1..], column, x);
      if column in rows[0].properties {
        var rest := ColumnValues(rows[1..], column);
        assert multiset([rows[0].Get(column)] + rest) == multiset([rows[0].Get(column)]) + multiset(rest);
      }
    }
  }

  // ---------------------------------------------------------------- what ascending means

  /** `a` comes before `b`: a smaller number, or a text that is a proper beginning of the
      other or has a smaller character at the first place where they differ. */
  ghost predicate Before(a: Value, b: Value) {
    match (a, b)
    case (Num(x), Num(y)) => x < y
    case (Str(s), Str(t)) => exists k | 0 <= k <= |s| && k <= |t| :: DiffersAt(s, t, k)
    case _ => false
  }

  ghost predicate DiffersAt(s: string, t: string, k: nat)
    requires k <= |s| && k <= |t|
  {
    s[..k] == t[..k] && k < |t| && (k == |s| || s[k] < t[k])
  }

  lemma SameHead(s: string, t: string, k: nat)
    requires k <= |s| && k <= |t| && s[..k] == t[..k]
    ensures k > 0 ==> s[0] == t[0]
  {
    if k > 0 {
      assert s[..k][0] == s[0] && t[..k][0] == t[0];
    }
  }

  lemma {:induction false} TextLessMeaning(s: string, t: string)
    ensures TextLess(s, t) <==> Before(Str(s), Str(t))
  {
    if s == "" || t == "" {
      if t != "" {
        assert DiffersAt(s, t, 0);
      }
    } else if s[0] != t[0] {
      if s[0] < t[0] {
        assert DiffersAt(s, t, 0);
      }
      forall k | 0 <= k <= |s| && k <= |t| && DiffersAt(s, t, k)
        ensures s[0] < t[0]
      {
        SameHead(s, t, k);
      }
    } else {
      TextLessMeaning(s[1..], t[1..]);
      if Before(Str(s[1..]), Str(t[1..])) {
        var k :| 0 <= k <= |s[1..]| && k <= |t[1..]| && DiffersAt(s[1..], t[1..], k);
        assert s[..k + 1] == [s[0]] + s[1..][..k] && t[..k + 1] == [t[0]] + t[1..][..k];
        assert DiffersAt(s, t, k + 1);
      }
      if Before(Str(s), Str(t)) {
        var k :| 0 <= k <= |s| && k <= |t| && DiffersAt(s, t, k);
        assert s[1..][..k - 1] == s[..k][1..] && t[1..][..k - 1] == t[..k][1..];
        assert DiffersAt(s[1..], t[1..], k - 1);
      }
    }
  }

  /** On a column of one kind the bars stand in that order. */
  lemma ChartInOrder(js: Runtime, rows: seq<Feature>, column: string, noNulls: bool, i: nat, j: nat)
    requires Homogeneous(MapKeys(js, rows, column, noNulls))
    requires i < j < |Chart(js, rows, column, noNulls)|
    ensures var bars := Chart(js, rows, column, noNulls); Before(bars[i].x, bars[j].x)
  {
    var keys := MapKeys(js, rows, column, noNulls);
    var sorted := Sort(js, Distinct(keys));
    DistinctExact(keys);
    SortAscending(js, Distinct(keys));
    SortPermutes(js, Distinct(keys));
    assert sorted[i] in sorted && sorted[j] in sorted && Less(js, sorted[i], sorted[j]);
    if sorted[i].Str? {
      TextLessMeaning(sorted[i].s, sorted[j].s);
    }
  }
}
