/** Joining data rows to a separate geography (setGeojsonProps). */
module Join {
  import opened JsValues
  import opened Features

  /** A geography with the column names to match on, data side first. */
  datatype Geography = Geography(features: seq<Feature>, dataColumn: string, geoColumn: string)

  /** The first row whose `column` strictly equals `key`. */
  function FirstMatch(rows: seq<Feature>, column: string, key: Value): Option<Feature> {
    if rows == [] then None
    else if rows[0].Get(column) == key then Some(rows[0])
    else FirstMatch(rows[1..], column, key)
  }

  function Combine(place: Feature, row: Feature): Feature {
    Feature(place.kind, row.properties, place.geometry)
  }

  /** Each place with a matching row, carrying the first such row's properties. */
  function JoinRows(places: seq<Feature>, rows: seq<Feature>, dataColumn: string, geoColumn: string): seq<Feature> {
    if places == [] then []
    else
      var m := FirstMatch(rows, dataColumn, places[0].Get(geoColumn));
      (if m.Some? then [Combine(places[0], m.value)] else [])
      + JoinRows(places[1..], rows, dataColumn, geoColumn)
  }

  /** Whether the join is attempted at all; otherwise the bare geography is used. */
  predicate Joinable(g: Geography, rows: seq<Feature>) {
    && g.features != [] && rows != []
    && Truthy(g.features[0].Get(g.geoColumn))
    && Truthy(rows[0].Get(g.dataColumn))
  }

  function Locate(g: Geography, rows: Option<seq<Feature>>): seq<Feature> {
    if rows.Some? && Joinable(g, rows.value)
    then JoinRows(g.features, rows.value, g.dataColumn, g.geoColumn)
    else g.features
  }

  method SetGeojsonProps(g: Geography, data: Option<seq<Feature>>) returns (result: seq<Feature>)
    ensures result == Locate(g, data)
  {
    if data.None? || g.features == [] || data.value == [] {
      return g.features;
    }
    var rows := data.value;
    if !Truthy(g.features[0].Get(g.geoColumn)) || !Truthy(rows[0].Get(g.dataColumn)) {
      return g.features;
    }
    result := [];
    for p := 0 to |g.features|
      invariant result + JoinRows(g.features[p..], rows, g.dataColumn, g.geoColumn)
                == JoinRows(g.features, rows, g.dataColumn, g.geoColumn)
    {
      JoinRowsFrom(g.features, p, rows, g.dataColumn, g.geoColumn);
      var m := FindFirst(rows, g.dataColumn, g.features[p].Get(g.geoColumn));
      if m.Some? {
        result := result + [Combine(g.features[p], m.value)];
      }
    }
  }

  lemma JoinRowsFrom(places: seq<Feature>, i: nat, rows: seq<Feature>, dataColumn: string, geoColumn: string)
    requires i < |places|
    ensures var m := FirstMatch(rows, dataColumn, places[i].Get(geoColumn));
            JoinRows(places[i..], rows, dataColumn, geoColumn)
            == (if m.Some? then [Combine(places[i], m.value)] else [])
               + JoinRows(places[i + 1..], rows, dataColumn, geoColumn)
  {
    assert places[i..][0] == places[i] && places[i..][1..] == places[i + 1..];
  }

  /** The inner loop, which breaks at the first match. */
  method FindFirst(rows: seq<Feature>, column: string, key: Value) returns (m: Option<Feature>)
    ensures m == FirstMatch(rows, column, key)
  {
    for i := 0 to |rows|
      invariant FirstMatch(rows, column, key) == FirstMatch(rows[i..], column, key)
    {
      assert rows[i..][1..] == rows[i + 1..];
      if rows[i].Get(column) == key {
        return Some(rows[i]);
      }
    }
    return None;
  }

  lemma {:induction false} FirstMatchHolds(rows: seq<Feature>, column: string, key: Value)
    ensures var m := FirstMatch(rows, column, key);
            && (m.Some? ==> m.value in rows && m.value.Get(column) == key)
            && (m.None? ==> forall r <- rows :: r.Get(column) != key)
  {
    if rows != [] {
      FirstMatchHolds(rows[1..], column, key);
      assert rows == [rows[0]] + rows[1..];
    }
  }

  predicate FirstAt(rows: seq<Feature>, column: string, key: Value, i: nat)
    requires i < |rows|
  {
    rows[i].Get(column) == key && forall k | 0 <= k < i :: rows[k].Get(column) != key
  }

  lemma {:induction false} FirstMatchAt(rows: seq<Feature>, column: string, key: Value, i: nat)
    requires i < |rows| && FirstAt(rows, column, key, i)
    ensures FirstMatch(rows, column, key) == Some(rows[i])
  {
    if i > 0 {
      FirstMatchAt(rows[1..], column, key, i - 1);
    }
  }

  /** The joined features: one for each place that some row matches, with the shape of
      the place and the properties of the first row that has its key. */
  lemma {:induction false} JoinMembers(places: seq<Feature>, rows: seq<Feature>,
                                       dataColumn: string, geoColumn: string, e: Feature)
    ensures e in JoinRows(places, rows, dataColumn, geoColumn)
            <==> exists p <- places, i: nat | i < |rows| ::
                   && FirstAt(rows, dataColumn, p.Get(geoColumn), i)
                   && e.properties == rows[i].properties && e.geometry == p.geometry && e.kind == p.kind
  {
    if places != [] {
      var p := places[0];
      assert places == [p] + places[1..];
      JoinMembers(places[1..], rows, dataColumn, geoColumn, e);
      FirstMatchIndex(rows, dataColumn, p.Get(geoColumn));
      forall i: nat | i < |rows| && FirstAt(rows, dataColumn, p.Get(geoColumn), i)
        ensures FirstMatch(rows, dataColumn, p.Get(geoColumn)) == Some(rows[i])
      {
        FirstMatchAt(rows, dataColumn, p.Get(geoColumn), i);
      }
    }
  }

  lemma {:induction false} FirstMatchIndex(rows: seq<Feature>, column: string, key: Value)
    ensures FirstMatch(rows, column, key).Some? ==> exists i: nat | i < |rows| :: FirstAt(rows, column, key, i)
  {
    if rows != [] && rows[0].Get(column) != key && FirstMatch(rows, column, key).Some? {
      FirstMatchIndex(rows[1..], column, key);
      var i: nat :| i < |rows[1..]| && FirstAt(rows[1..], column, key, i);
      forall k | 0 <= k < i + 1
        ensures rows[k].Get(column) != key
      {
        assert k > 0 ==> rows[k] == rows[1..][k - 1];
      }
      assert FirstAt(rows, column, key, i + 1);
    } else if rows != [] && rows[0].Get(column) == key {
      assert FirstAt(rows, column, key, 0);
    }
  }

  predicate HasMatch(rows: seq<Feature>, column: string, key: Value) {
    exists r <- rows :: r.Get(column) == key
  }

  function Matched(rows: seq<Feature>, dataColumn: string, geoColumn: string): Feature -> bool {
    (p: Feature) => HasMatch(rows, dataColumn, p.Get(geoColumn))
  }

  /** The joined features one by one: they are those places that have a match, each once
      and in order, with the properties of the first row that has the key. */
  lemma {:induction false} JoinInOrder(places: seq<Feature>, rows: seq<Feature>,
                                       dataColumn: string, geoColumn: string, k: nat)
    ensures var joined := JoinRows(places, rows, dataColumn, geoColumn);
            var matched := Where(Matched(rows, dataColumn, geoColumn), places);
            && |joined| == |matched|
            && (k < |matched| ==>
                  && joined[k].kind == matched[k].kind && joined[k].geometry == matched[k].geometry
                  && exists i: nat | i < |rows| ::
                       && FirstAt(rows, dataColumn, matched[k].Get(geoColumn), i)
                       && joined[k].properties == rows[i].properties)
  {
    if places != [] {
      var p := places[0];
      var key := p.Get(geoColumn);
      FirstMatchHolds(rows, dataColumn, key);
      FirstMatchIndex(rows, dataColumn, key);
      if FirstMatch(rows, dataColumn, key).None? {
        JoinInOrder(places[1..], rows, dataColumn, geoColumn, k);
      } else {
        assert HasMatch(rows, dataColumn, key);
        JoinInOrder(places[1..], rows, dataColumn, geoColumn, if k > 0 then k - 1 else 0);
        var i: nat :| i < |rows| && FirstAt(rows, dataColumn, key, i);
        FirstMatchAt(rows, dataColumn, key, i);
      }
    }
  }

  /** When the join is made, and when the bare geography is used instead. */
  lemma LocateExact(g: Geography, rows: Option<seq<Feature>>)
    ensures Locate(g, rows)
            == if rows.None? || rows.value == [] || g.features == []
                  || !Truthy(g.features[0].Get(g.geoColumn)) || !Truthy(rows.value[0].Get(g.dataColumn))
               then g.features
               else JoinRows(g.features, rows.value, g.dataColumn, g.geoColumn)
  {
  }

  /** A first match that passes the filter is still the first match afterwards. */
  lemma {:induction false} FirstMatchKept(js: Runtime, rows: seq<Feature>, column: string, key: Value, s: Selected)
    ensures var m := FirstMatch(rows, column, key);
            var k := FirstMatch(Keep(js, rows, BySelection(s)), column, key);
            && (m.None? ==> k.None?)
            && (m.Some? && Passes(js, m.value, s) ==> k == m)
  {
    if rows != [] {
      FirstMatchKept(js, rows[1..], column, key, s);
      var rest := Keep(js, rows[1..], BySelection(s));
      assert ([rows[0]] + rest)[1..] == rest;
      assert [] + rest == rest;
    }
  }

  /** The place's first row is filtered away while a later row with its key is kept. */
  predicate Shadowed(js: Runtime, place: Feature, rows: seq<Feature>,
                     dataColumn: string, geoColumn: string, s: Selected) {
    var key := place.Get(geoColumn);
    var m := FirstMatch(rows, dataColumn, key);
    m.Some? && !Passes(js, m.value, s) && exists r <- rows :: r.Get(dataColumn) == key && Passes(js, r, s)
  }

  lemma JoinHead(js: Runtime, places: seq<Feature>, rows: seq<Feature>,
                 dataColumn: string, geoColumn: string, s: Selected)
    requires places != []
    ensures var key := places[0].Get(geoColumn);
            var m := FirstMatch(rows, dataColumn, key);
            var rest := JoinRows(places[1..], rows, dataColumn, geoColumn);
            Keep(js, JoinRows(places, rows, dataColumn, geoColumn), BySelection(s))
            == (if m.Some? && Passes(js, m.value, s) then [Combine(places[0], m.value)] else [])
               + Keep(js, rest, BySelection(s))
  {
    var m := FirstMatch(rows, dataColumn, places[0].Get(geoColumn));
    if m.Some? {
      var c := Combine(places[0], m.value);
      assert forall column :: c.Get(column) == m.value.Get(column);
      assert Passes(js, c, s) <==> Passes(js, m.value, s);
      KeepConcat(js, [c], JoinRows(places[1..], rows, dataColumn, geoColumn), BySelection(s));
    } else {
      assert JoinRows(places, rows, dataColumn, geoColumn) == JoinRows(places[1..], rows, dataColumn, geoColumn);
    }
  }

  /** Filtering after the join only loses rows against joining the filtered rows:
      the result is an order-preserving part of it, and the two are equal exactly
      when no place is shadowed by a first match that the filter rejects. */
  lemma {:induction false} SelectionPushdown(js: Runtime, places: seq<Feature>, rows: seq<Feature>,
                                             dataColumn: string, geoColumn: string, s: Selected)
    ensures var after := Keep(js, JoinRows(places, rows, dataColumn, geoColumn), BySelection(s));
            var before := JoinRows(places, Keep(js, rows, BySelection(s)), dataColumn, geoColumn);
            && Subsequence(after, before)
            && (after == before <==> forall p <- places :: !Shadowed(js, p, rows, dataColumn, geoColumn, s))
  {
    if places != [] {
      SelectionPushdown(js, places[1..], rows, dataColumn, geoColumn, s);
      JoinHead(js, places, rows, dataColumn, geoColumn, s);
      var place, t := places[0], BySelection(s);
      var key := place.Get(geoColumn);
      var m, k := FirstMatch(rows, dataColumn, key), FirstMatch(Keep(js, rows, t), dataColumn, key);
      FirstMatchKept(js, rows, dataColumn, key, s);
      FirstMatchHolds(Keep(js, rows, t), dataColumn, key);
      KeepMembers(js, rows, t);
      var after := Keep(js, JoinRows(places, rows, dataColumn, geoColumn), t);
      var before := JoinRows(places, Keep(js, rows, t), dataColumn, geoColumn);
      var after' := Keep(js, JoinRows(places[1..], rows, dataColumn, geoColumn), t);
      var before' := JoinRows(places[1..], Keep(js, rows, t), dataColumn, geoColumn);
      assert places == [place] + places[1..];
      assert Shadowed(js, place, rows, dataColumn, geoColumn, s)
        <==> m.Some? && !Passes(js, m.value, s) && k.Some? by {
        if k.Some? {
          assert k.value in rows && k.value.Get(dataColumn) == key && Passes(js, k.value, s);
        }
      }
      if m.Some? && Passes(js, m.value, s) {
        var c := [Combine(place, m.value)];
        assert after == c + after' && before == c + before';
        assert after[1..] == after' && before[1..] == before';
      } else if k.Some? {
        assert after == after' && before == [Combine(place, k.value)] + before';
        assert before[1..] == before';
        SubsequenceLength(after', before');
      } else {
        assert after == after' && before == before';
      }
    }
  }

  predicate UniqueKeys(rows: seq<Feature>, column: string) {
    forall i, j | 0 <= i < j < |rows| :: rows[i].Get(column) != rows[j].Get(column)
  }

  /** With unique keys on the data side the filter can be moved across the join,
      guards included, as long as some row passes it. */
  lemma PushdownWithUniqueKeys(js: Runtime, g: Geography, rows: seq<Feature>, s: Selected)
    requires UniqueKeys(rows, g.dataColumn)
    requires rows != [] && Truthy(rows[0].Get(g.dataColumn))
    requires Keep(js, rows, BySelection(s)) != [] && Truthy(Keep(js, rows, BySelection(s))[0].Get(g.dataColumn))
    requires g.features != [] && Truthy(g.features[0].Get(g.geoColumn))
    ensures Keep(js, Locate(g, Some(rows)), BySelection(s))
            == Locate(g, Some(Keep(js, rows, BySelection(s))))
  {
    forall p <- g.features
      ensures !Shadowed(js, p, rows, g.dataColumn, g.geoColumn, s)
    {
      FirstMatchHolds(rows, g.dataColumn, p.Get(g.geoColumn));
    }
    SelectionPushdown(js, g.features, rows, g.dataColumn, g.geoColumn, s);
  }

  /** Every joined row combines a place with the first match of its key. */
  lemma {:induction false} JoinedRowOrigin(places: seq<Feature>, rows: seq<Feature>,
                                           dataColumn: string, geoColumn: string, e: Feature)
    requires e in JoinRows(places, rows, dataColumn, geoColumn)
    ensures var m := FirstMatch(rows, dataColumn, e.Get(dataColumn));
            && m.Some? && m.value.properties == e.properties
            && exists p <- places :: p.Get(geoColumn) == e.Get(dataColumn) && e == Combine(p, m.value)
  {
    var key := places[0].Get(geoColumn);
    var m := FirstMatch(rows, dataColumn, key);
    FirstMatchHolds(rows, dataColumn, key);
    if m.Some? && e == Combine(places[0], m.value) {
      assert e.Get(dataColumn) == m.value.Get(dataColumn);
      assert places[0] in places;
    } else {
      JoinedRowOrigin(places[1..], rows, dataColumn, geoColumn, e);
    }
  }

  lemma {:induction false} JoinedRowPresent(places: seq<Feature>, rows: seq<Feature>,
                                            dataColumn: string, geoColumn: string, p: Feature)
    requires p in places
    requires FirstMatch(rows, dataColumn, p.Get(geoColumn)).Some?
    ensures var m := FirstMatch(rows, dataColumn, p.Get(geoColumn));
            Combine(p, m.value) in JoinRows(places, rows, dataColumn, geoColumn)
  {
    if p != places[0] {
      assert p in places[1..];
      JoinedRowPresent(places[1..], rows, dataColumn, geoColumn, p);
    }
  }

  // ---------------------------------------------------------------- joining a result again

  /** The rows that a test leaves of a join. */
  function Cut(js: Runtime, places: seq<Feature>, rows: seq<Feature>,
               dataColumn: string, geoColumn: string, t: Test): seq<Feature> {
    Keep(js, JoinRows(places, rows, dataColumn, geoColumn), t)
  }

  /** The test cuts the place away but keeps another place with the same key. */
  predicate Severed(js: Runtime, p: Feature, places: seq<Feature>, rows: seq<Feature>,
                    dataColumn: string, geoColumn: string, t: Test) {
    var m := FirstMatch(rows, dataColumn, p.Get(geoColumn));
    && m.Some? && !Meets(js, Combine(p, m.value), t)
    && exists q <- places :: q.Get(geoColumn) == p.Get(geoColumn) && Meets(js, Combine(q, m.value), t)
  }

  /** Looking a key up in an earlier result finds the properties it has in the rows, or
      nothing if every place with that key was cut away. */
  lemma LookupInResult(js: Runtime, places: seq<Feature>, rows: seq<Feature>,
                       dataColumn: string, geoColumn: string, t: Test, key: Value)
    ensures var m := FirstMatch(rows, dataColumn, key);
            var k := FirstMatch(Cut(js, places, rows, dataColumn, geoColumn, t), dataColumn, key);
            && (k.Some? <==>
                  m.Some? && exists q <- places :: q.Get(geoColumn) == key && Meets(js, Combine(q, m.value), t))
            && (k.Some? ==> k.value.properties == m.value.properties)
  {
    var joined := JoinRows(places, rows, dataColumn, geoColumn);
    var shown := Keep(js, joined, t);
    var m, k := FirstMatch(rows, dataColumn, key), FirstMatch(shown, dataColumn, key);
    FirstMatchHolds(rows, dataColumn, key);
    FirstMatchHolds(shown, dataColumn, key);
    KeepMembers(js, joined, t);
    if k.Some? {
      JoinedRowOrigin(places, rows, dataColumn, geoColumn, k.value);
    }
    if m.Some? {
      forall q | q in places && q.Get(geoColumn) == key && Meets(js, Combine(q, m.value), t)
        ensures k.Some?
      {
        var e := Combine(q, m.value);
        JoinedRowPresent(places, rows, dataColumn, geoColumn, q);
        assert e in shown && e.Get(dataColumn) == m.value.Get(dataColumn);
      }
    }
  }

  /** The first place of a list, in the cut and in the cut joined again. */
  lemma RejoinHead(js: Runtime, some: seq<Feature>, places: seq<Feature>, rows: seq<Feature>,
                   dataColumn: string, geoColumn: string, t: Test)
    requires some != [] && some[0] in places
    ensures var p := some[0];
            var m := FirstMatch(rows, dataColumn, p.Get(geoColumn));
            var shown := Cut(js, places, rows, dataColumn, geoColumn, t);
            var kept := m.Some? && Meets(js, Combine(p, m.value), t);
            && Cut(js, some, rows, dataColumn, geoColumn, t)
               == (if kept then [Combine(p, m.value)] else []) + Cut(js, some[1..], rows, dataColumn, geoColumn, t)
            && JoinRows(some, shown, dataColumn, geoColumn)
               == (if kept || Severed(js, p, places, rows, dataColumn, geoColumn, t)
                   then [Combine(p, m.value)] else [])
                  + JoinRows(some[1..], shown, dataColumn, geoColumn)
  {
    var p := some[0];
    var m := FirstMatch(rows, dataColumn, p.Get(geoColumn));
    LookupInResult(js, places, rows, dataColumn, geoColumn, t, p.Get(geoColumn));
    KeepConcat(js, if m.Some? then [Combine(p, m.value)] else [], JoinRows(some[1..], rows, dataColumn, geoColumn), t);
  }

  /** Joining a cut again can only bring places back, and it brings none back exactly
      when no place was severed. */
  lemma {:induction false} RejoinGrows(js: Runtime, some: seq<Feature>, places: seq<Feature>, rows: seq<Feature>,
                                       dataColumn: string, geoColumn: string, t: Test)
    requires forall p <- some :: p in places
    ensures var cut := Cut(js, some, rows, dataColumn, geoColumn, t);
            var again := JoinRows(some, Cut(js, places, rows, dataColumn, geoColumn, t), dataColumn, geoColumn);
            && Subsequence(cut, again)
            && (again == cut <==> forall p <- some :: !Severed(js, p, places, rows, dataColumn, geoColumn, t))
  {
    if some != [] {
      var p, rest := some[0], some[1..];
      assert some == [p] + rest;
      assert p in some;
      RejoinGrows(js, rest, places, rows, dataColumn, geoColumn, t);
      RejoinHead(js, some, places, rows, dataColumn, geoColumn, t);
      var m := FirstMatch(rows, dataColumn, p.Get(geoColumn));
      var shown := Cut(js, places, rows, dataColumn, geoColumn, t);
      var head := if m.Some? then [Combine(p, m.value)] else [];
      GrownBy(Cut(js, rest, rows, dataColumn, geoColumn, t), JoinRows(rest, shown, dataColumn, geoColumn), head);
    }
  }

  /** One more element in front of a list and of a part of it. */
  lemma GrownBy(part: seq<Feature>, whole: seq<Feature>, head: seq<Feature>)
    requires Subsequence(part, whole) && |head| <= 1
    ensures Subsequence(part, [] + whole) && [] + part == part
    ensures Subsequence(head + part, head + whole)
    ensures Subsequence(part, head + whole)
    ensures head + part == head + whole <==> part == whole
    ensures head != [] ==> part != head + whole
  {
    SubsequenceLength(part, whole);
    assert [] + whole == whole && [] + part == part;
    if head != [] {
      assert (head + part)[1..] == part && (head + whole)[1..] == whole;
    }
  }

  /** Feeding a cut result back through the join, as every pass of a pinned map does,
      gives that result again exactly when no place was severed from another one with
      its key. If its first row has no usable key, the bare geography comes back. */
  lemma RejoinExactness(js: Runtime, g: Geography, rows: seq<Feature>, t: Test)
    requires Joinable(g, rows)
    requires Keep(js, Locate(g, Some(rows)), t) != []
    ensures var cut := Keep(js, Locate(g, Some(rows)), t);
            if Truthy(cut[0].Get(g.dataColumn)) then
              && Subsequence(cut, Locate(g, Some(cut)))
              && (Locate(g, Some(cut)) == cut
                  <==> forall p <- g.features :: !Severed(js, p, g.features, rows, g.dataColumn, g.geoColumn, t))
            else Locate(g, Some(cut)) == g.features
  {
    RejoinGrows(js, g.features, g.features, rows, g.dataColumn, g.geoColumn, t);
  }

  /** A selection alone never severs a place, so results of the property filter are
      stable, duplicates or not, as long as their first row has a usable key. */
  lemma RejoinStability(js: Runtime, g: Geography, rows: seq<Feature>, s: Selected)
    requires Joinable(g, rows)
    requires Keep(js, Locate(g, Some(rows)), BySelection(s)) != []
    ensures var shown := Keep(js, Locate(g, Some(rows)), BySelection(s));
            Locate(g, Some(shown)) == if Truthy(shown[0].Get(g.dataColumn)) then shown else g.features
  {
    forall p, q, m: Feature
      ensures Meets(js, Combine(p, m), BySelection(s)) <==> Meets(js, Combine(q, m), BySelection(s))
    {
      assert forall column :: Combine(p, m).Get(column) == Combine(q, m).Get(column);
    }
    RejoinExactness(js, g, rows, BySelection(s));
  }

  /** No point and no bounds tell the two shapes apart. */
  ghost predicate Alike(a: Geometry, b: Geometry) {
    || a == b
    || (a.kind == b.kind == "MultiPolygon" && forall x :: x in a.points <==> x in b.points)
  }

  /** Places that share the key of some row have shapes no test tells apart. */
  ghost predicate TwinsAlike(g: Geography, rows: seq<Feature>) {
    forall p, q | p in g.features && q in g.features && p.Get(g.geoColumn) == q.Get(g.geoColumn)
      && FirstMatch(rows, g.dataColumn, p.Get(g.geoColumn)).Some? :: Alike(p.geometry, q.geometry)
  }

  lemma AlikeMeets(js: Runtime, d: Feature, e: Feature, t: Test)
    requires d.properties == e.properties && Alike(d.geometry, e.geometry)
    ensures Meets(js, d, t) <==> Meets(js, e, t)
  {
    assert forall column :: d.Get(column) == e.Get(column);
    assert Passes(js, d, t.selected) <==> Passes(js, e, t.selected);
    if t.point.Some? {
      var a, b := d.geometry.points, e.geometry.points;
      assert forall x :: x in a <==> x in b;
      assert forall i | 0 <= i < |t.point.value| :: t.point.value[i] in a <==> t.point.value[i] in b;
    }
  }

  /** A test that keeps one of two shapes that are not alike. */
  lemma TellApart(js: Runtime, d: Feature, e: Feature) returns (t: Test)
    requires !Alike(d.geometry, e.geometry)
    ensures Meets(js, d, t) != Meets(js, e, t)
  {
    var a, b := d.geometry, e.geometry;
    if a.kind == b.kind == "MultiPolygon" {
      var x :| !(x in a.points <==> x in b.points);
      t := Test(map[], Some([x]), None);
      assert forall s: seq<real> :: Covers([x], s) <==> x in s by {
        assert [x][0] == x;
      }
    } else {
      var out := if a.kind == "MultiPolygon" then b else a;
      t := Test(map[], None, Some((shape: Geometry) => shape != out));
    }
  }

  /** Every cut whatever, by selection, pinned point or bounds, can safely be joined
      again if and only if places that share a key look alike; unique keys are enough. */
  lemma EveryCutStable(js: Runtime, g: Geography, rows: seq<Feature>)
    requires Joinable(g, rows) && forall r <- rows :: Truthy(r.Get(g.dataColumn))
    ensures (forall t: Test | Keep(js, Locate(g, Some(rows)), t) != [] ::
               Locate(g, Some(Keep(js, Locate(g, Some(rows)), t))) == Keep(js, Locate(g, Some(rows)), t))
            <==> TwinsAlike(g, rows)
    ensures UniqueKeys(g.features, g.geoColumn) ==> TwinsAlike(g, rows)
  {
    if TwinsAlike(g, rows) {
      forall t: Test | Keep(js, Locate(g, Some(rows)), t) != []
        ensures Locate(g, Some(Keep(js, Locate(g, Some(rows)), t))) == Keep(js, Locate(g, Some(rows)), t)
      {
        TwinsNeverSevered(js, g, rows, t);
      }
    } else {
      var p, q :| p in g.features && q in g.features && p.Get(g.geoColumn) == q.Get(g.geoColumn)
        && FirstMatch(rows, g.dataColumn, p.Get(g.geoColumn)).Some? && !Alike(p.geometry, q.geometry);
      var t := UnlikeSevered(js, g, rows, p, q);
    }
  }

  lemma TwinsNeverSevered(js: Runtime, g: Geography, rows: seq<Feature>, t: Test)
    requires Joinable(g, rows) && TwinsAlike(g, rows)
    requires forall r <- rows :: Truthy(r.Get(g.dataColumn))
    requires Keep(js, Locate(g, Some(rows)), t) != []
    ensures Locate(g, Some(Keep(js, Locate(g, Some(rows)), t))) == Keep(js, Locate(g, Some(rows)), t)
  {
    var cut := Keep(js, Locate(g, Some(rows)), t);
    FirstKeyTruthy(js, g, rows, t);
    forall p | p in g.features
      ensures !Severed(js, p, g.features, rows, g.dataColumn, g.geoColumn, t)
    {
      var m := FirstMatch(rows, g.dataColumn, p.Get(g.geoColumn));
      if m.Some? {
        forall q | q in g.features && q.Get(g.geoColumn) == p.Get(g.geoColumn)
          ensures Meets(js, Combine(q, m.value), t) <==> Meets(js, Combine(p, m.value), t)
        {
          AlikeMeets(js, Combine(q, m.value), Combine(p, m.value), t);
        }
      }
    }
    RejoinExactness(js, g, rows, t);
  }

  lemma FirstKeyTruthy(js: Runtime, g: Geography, rows: seq<Feature>, t: Test)
    requires Joinable(g, rows) && forall r <- rows :: Truthy(r.Get(g.dataColumn))
    requires Keep(js, Locate(g, Some(rows)), t) != []
    ensures Truthy(Keep(js, Locate(g, Some(rows)), t)[0].Get(g.dataColumn))
  {
    var cut := Keep(js, Locate(g, Some(rows)), t);
    KeepMembers(js, Locate(g, Some(rows)), t);
    assert cut[0] in cut;
    JoinedKeysTruthy(g, rows, cut[0]);
  }

  lemma UnlikeSevered(js: Runtime, g: Geography, rows: seq<Feature>, p: Feature, q: Feature) returns (t: Test)
    requires Joinable(g, rows) && forall r <- rows :: Truthy(r.Get(g.dataColumn))
    requires p in g.features && q in g.features && p.Get(g.geoColumn) == q.Get(g.geoColumn)
    requires FirstMatch(rows, g.dataColumn, p.Get(g.geoColumn)).Some? && !Alike(p.geometry, q.geometry)
    ensures var cut := Keep(js, Locate(g, Some(rows)), t);
            cut != [] && Locate(g, Some(cut)) != cut
  {
    var m := FirstMatch(rows, g.dataColumn, p.Get(g.geoColumn)).value;
    t := TellApart(js, Combine(p, m), Combine(q, m));
    var kept := if Meets(js, Combine(p, m), t) then p else q;
    JoinedRowPresent(g.features, rows, g.dataColumn, g.geoColumn, kept);
    KeepMembers(js, Locate(g, Some(rows)), t);
    assert Combine(kept, m) in Keep(js, Locate(g, Some(rows)), t);
    FirstKeyTruthy(js, g, rows, t);
    assert Severed(js, if kept == p then q else p, g.features, rows, g.dataColumn, g.geoColumn, t);
    RejoinExactness(js, g, rows, t);
  }

  /** All rows a join shows come from data rows, so truthy keys stay truthy. */
  lemma JoinedKeysTruthy(g: Geography, rows: seq<Feature>, e: Feature)
    requires forall r <- rows :: Truthy(r.Get(g.dataColumn))
    requires e in JoinRows(g.features, rows, g.dataColumn, g.geoColumn)
    ensures Truthy(e.Get(g.dataColumn))
  {
    JoinedRowOrigin(g.features, rows, g.dataColumn, g.geoColumn, e);
    FirstMatchHolds(rows, g.dataColumn, e.Get(g.dataColumn));
  }
}
