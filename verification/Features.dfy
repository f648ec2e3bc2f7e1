/** Features, the selection, and the row filter of the map pipeline. */
module Features {
  import opened JsValues

  /** `points` are the numbers of `coordinates.flat()`, of which nested coordinates such
      as a polygon's have none; `shape` stands for the coordinates themselves. */
  datatype Geometry = Geometry(kind: string, points: seq<real>, shape: nat)

  datatype Feature = Feature(kind: string, properties: map<string, Value>, geometry: Geometry) {
    function Get(column: string): Value {
      if column in properties then properties[column] else Missing
    }
  }

  /** The content of a `multiVarSelect` object: allowed values by column. */
  type Selected = map<string, set<Value>>

  /** Everything one filtering pass tests a feature for: the selection, the
      coordinates of a pinned line, and containment in the map bounds. */
  datatype Test = Test(selected: Selected, point: Option<seq<real>>, inside: Option<Geometry -> bool>)

  function BySelection(selected: Selected): Test {
    Test(selected, None, None)
  }

  predicate Passes(js: Runtime, d: Feature, selected: Selected) {
    forall column <- selected :: Str(js.Text(d.Get(column))) in selected[column]
  }

  predicate Covers(point: seq<real>, points: seq<real>) {
    forall i | 0 <= i < |point| :: point[i] in points
  }

  predicate Meets(js: Runtime, d: Feature, t: Test) {
    && Passes(js, d, t.selected)
    && (t.point.Some? ==> Covers(t.point.value, d.geometry.points))
    && (t.inside.Some? ==> d.geometry.kind == "MultiPolygon" || t.inside.value(d.geometry))
  }

  /** The features that meet a test, in order. */
  function Keep(js: Runtime, rows: seq<Feature>, t: Test): seq<Feature> {
    if rows == [] then []
    else if Meets(js, rows[0], t) then [rows[0]] + Keep(js, rows[1..], t)
    else Keep(js, rows[1..], t)
  }

  lemma SomeMember<T>(s: seq<T>)
    ensures s != [] ==> exists v :: v in s
  {
    if s != [] {
      assert s[0] in s;
    }
  }

  /** `a` is what is left of `b` after deleting some of its elements. */
  ghost predicate Subsequence<T>(a: seq<T>, b: seq<T>) {
    if a == [] then true
    else if b == [] then false
    else (a[0] == b[0] && Subsequence(a[1..], b[1..])) || Subsequence(a, b[1..])
  }

  lemma {:induction false} SubsequenceReflexive<T>(a: seq<T>)
    ensures Subsequence(a, a)
  {
    if a != [] {
      SubsequenceReflexive(a[1..]);
    }
  }

  lemma {:induction false} SubsequenceTransitive<T>(a: seq<T>, b: seq<T>, c: seq<T>)
    requires Subsequence(a, b) && Subsequence(b, c)
    ensures Subsequence(a, c)
    decreases |b| + |c|
  {
    if a != [] {
      if b[0] == c[0] && Subsequence(b[1..], c[1..]) {
        if a[0] == b[0] && Subsequence(a[1..], b[1..]) {
          SubsequenceTransitive(a[1..], b[1..], c[1..]);
        } else {
          SubsequenceTransitive(a, b[1..], c[1..]);
        }
      } else {
        SubsequenceTransitive(a, b, c[1..]);
      }
    }
  }

  lemma {:induction false} SubsequenceLength<T>(a: seq<T>, b: seq<T>)
    requires Subsequence(a, b)
    ensures |a| <= |b|
    ensures |a| == |b| ==> a == b
  {
    if a != [] {
      if a[0] == b[0] && Subsequence(a[1..], b[1..]) {
        SubsequenceLength(a[1..], b[1..]);
        assert a == [a[0]] + a[1..] && b == [b[0]] + b[1..];
      } else {
        SubsequenceLength(a, b[1..]);
      }
    }
  }

  /** Filtering keeps exactly the features that meet the test. */
  lemma {:induction false} KeepMembers(js: Runtime, rows: seq<Feature>, t: Test)
    ensures forall d :: d in Keep(js, rows, t) <==> d in rows && Meets(js, d, t)
  {
    if rows != [] {
      KeepMembers(js, rows[1..], t);
      assert rows == [rows[0]] + rows[1..];
    }
  }

  /** ... in their original order. */
  lemma {:induction false} KeepIsSubsequence(js: Runtime, rows: seq<Feature>, t: Test)
    ensures Subsequence(Keep(js, rows, t), rows)
  {
    if rows != [] {
      KeepIsSubsequence(js, rows[1..], t);
      var rest := Keep(js, rows[1..], t);
      if Meets(js, rows[0], t) {
        assert ([rows[0]] + rest)[1..] == rest;
      } else {
        assert [] + rest == rest;
      }
    }
  }

  lemma {:induction false} KeepAll(js: Runtime, rows: seq<Feature>, t: Test)
    requires forall d <- rows :: Meets(js, d, t)
    ensures Keep(js, rows, t) == rows
  {
    if rows != [] {
      KeepAll(js, rows[1..], t);
      assert rows == [rows[0]] + rows[1..];
    }
  }

  lemma KeepIdempotent(js: Runtime, rows: seq<Feature>, t: Test)
    ensures Keep(js, Keep(js, rows, t), t) == Keep(js, rows, t)
  {
    KeepMembers(js, rows, t);
    KeepAll(js, Keep(js, rows, t), t);
  }

  lemma {:induction false} KeepConcat(js: Runtime, a: seq<Feature>, b: seq<Feature>, t: Test)
    ensures Keep(js, a + b, t) == Keep(js, a, t) + Keep(js, b, t)
  {
    if a == [] {
      assert [] + b == b;
    } else {
      assert (a + b)[0] == a[0] && (a + b)[1..] == a[1..] + b;
      KeepConcat(js, a[1..], b, t);
    }
  }

  /** Two passes over the same rows can be swapped. */
  lemma {:induction false} KeepCommutes(js: Runtime, rows: seq<Feature>, t: Test, u: Test)
    ensures Keep(js, Keep(js, rows, t), u) == Keep(js, Keep(js, rows, u), t)
  {
    if rows != [] {
      KeepCommutes(js, rows[1..], t, u);
      var head := [rows[0]];
      KeepConcat(js, if Meets(js, rows[0], t) then head else [], Keep(js, rows[1..], t), u);
      KeepConcat(js, if Meets(js, rows[0], u) then head else [], Keep(js, rows[1..], u), t);
    }
  }

  /** A stricter selection after a weaker one is the stricter one alone. */
  lemma {:induction false} KeepNarrows(js: Runtime, rows: seq<Feature>, t: Test, u: Test)
    requires forall d <- rows :: Meets(js, d, u) ==> Meets(js, d, t)
    ensures Keep(js, Keep(js, rows, t), u) == Keep(js, rows, u)
  {
    if rows != [] {
      KeepNarrows(js, rows[1..], t, u);
      KeepConcat(js, if Meets(js, rows[0], t) then [rows[0]] else [], Keep(js, rows[1..], t), u);
    }
  }

  // ---------------------------------------------------------------- filtering by any condition

  /** The elements that satisfy `p`, in order. */
  function Where(p: Feature -> bool, rows: seq<Feature>): seq<Feature> {
    if rows == [] then [] else (if p(rows[0]) then [rows[0]] else []) + Where(p, rows[1..])
  }

  lemma {:induction false} WhereMembers(p: Feature -> bool, rows: seq<Feature>)
    ensures forall d :: d in Where(p, rows) <==> d in rows && p(d)
  {
    if rows != [] {
      WhereMembers(p, rows[1..]);
      assert rows == [rows[0]] + rows[1..];
    }
  }

  lemma {:induction false} KeepIsWhere(js: Runtime, rows: seq<Feature>, t: Test, p: Feature -> bool)
    ensures Keep(js, rows, t) == Where(p, rows) <==> forall d <- rows :: Meets(js, d, t) <==> p(d)
  {
    if forall d <- rows :: Meets(js, d, t) <==> p(d) {
      if rows != [] {
        assert rows == [rows[0]] + rows[1..];
        KeepIsWhere(js, rows[1..], t, p);
      }
    } else {
      KeepMembers(js, rows, t);
      WhereMembers(p, rows);
      var d :| d in rows && !(Meets(js, d, t) <==> p(d));
      assert d in Keep(js, rows, t) <==> d !in Where(p, rows);
    }
  }

  lemma {:induction false} WhereIsSubsequence(p: Feature -> bool, rows: seq<Feature>)
    ensures Subsequence(Where(p, rows), rows)
  {
    if rows != [] {
      WhereIsSubsequence(p, rows[1..]);
      var rest := Where(p, rows[1..]);
      if p(rows[0]) {
        assert ([rows[0]] + rest)[1..] == rest;
      } else {
        assert [] + rest == rest;
      }
    }
  }

  lemma {:induction false} WhereConcat(p: Feature -> bool, a: seq<Feature>, b: seq<Feature>)
    ensures Where(p, a + b) == Where(p, a) + Where(p, b)
  {
    if a == [] {
      assert a + b == b;
    } else {
      assert (a + b)[0] == a[0] && (a + b)[1..] == a[1..] + b;
      WhereConcat(p, a[1..], b);
    }
  }

  lemma {:induction false} WhereSame(p: Feature -> bool, q: Feature -> bool, rows: seq<Feature>)
    requires forall d <- rows :: p(d) <==> q(d)
    ensures Where(p, rows) == Where(q, rows)
  {
    if rows != [] {
      assert rows == [rows[0]] + rows[1..];
      WhereSame(p, q, rows[1..]);
    }
  }

  // ---------------------------------------------------------------- the filter as it is written

  /** The inner loop of filterGeojson: go through the selected columns and stop
      at the first one that does not hold the row's value, compared as text. */
  method PassesSelection(js: Runtime, d: Feature, selected: Selected) returns (ok: bool)
    ensures ok == Passes(js, d, selected)
  {
    var columns := selected.Keys;
    while columns != {}
      invariant columns <= selected.Keys
      invariant forall c <- selected.Keys - columns :: Str(js.Text(d.Get(c))) in selected[c]
      decreases |columns|
    {
      var each :| each in columns;
      var nextValue := js.Text(d.Get(each));
      if Str(nextValue) !in selected[each] {
        return false;
      }
      columns := columns - {each};
    }
    return true;
  }

  /** underscore's `difference(point, coordinates).length === 0` */
  method CoversPoint(point: seq<real>, points: seq<real>) returns (ok: bool)
    ensures ok == Covers(point, points)
  {
    for i := 0 to |point|
      invariant Covers(point[..i], points)
    {
      if point[i] !in points {
        return false;
      }
    }
    return true;
  }

  /** The callback filterGeojson gives to `filter`. */
  method MeetsTest(js: Runtime, d: Feature, t: Test) returns (ok: bool)
    ensures ok == Meets(js, d, t)
  {
    ok := PassesSelection(js, d, t.selected);
    if ok && t.point.Some? {
      ok := CoversPoint(t.point.value, d.geometry.points);
    }
    if ok && t.inside.Some? && d.geometry.kind != "MultiPolygon" && !t.inside.value(d.geometry) {
      ok := false;
    }
  }

  lemma KeepFrom(js: Runtime, data: seq<Feature>, i: nat, t: Test)
    requires i < |data|
    ensures Keep(js, data[i..], t) == if Meets(js, data[i], t) then [data[i]] + Keep(js, data[i + 1..], t)
                                      else Keep(js, data[i + 1..], t)
  {
    assert data[i..][0] == data[i] && data[i..][1..] == data[i + 1..];
  }

  /** filterGeojson once it has decided what to test. */
  method FilterGeojson(js: Runtime, data: seq<Feature>, t: Test) returns (kept: seq<Feature>)
    ensures kept == Keep(js, data, t)
  {
    kept := [];
    for i := 0 to |data|
      invariant kept + Keep(js, data[i..], t) == Keep(js, data, t)
    {
      KeepFrom(js, data, i, t);
      var ok := MeetsTest(js, data[i], t);
      if ok {
        kept := kept + [data[i]];
      }
    }
  }
}
