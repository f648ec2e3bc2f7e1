/** Brushing and linking: clicking bars of a chart selects the rows they counted. */
module BrushLink {
  import opened JsValues
  import opened Features
  import opened Join
  import opened Pipeline
  import opened World
  import opened Counts

  // ---------------------------------------------------------------- bar charts

  /** The rows drawn in the chart of a column at all. */
  function Drawn(column: string): Feature -> bool {
    (d: Feature) => Truthy(d.Get(column))
  }

  /** The rows drawn in one of the bars at `xs`. */
  function Hits(js: Runtime, column: string, xs: seq<Value>): Feature -> bool {
    (d: Feature) => Truthy(d.Get(column)) && Key(js, d.Get(column)) in xs
  }

  function Equals(column: string, x: Value): Feature -> bool {
    (d: Feature) => d.Get(column) == x
  }

  /** The row is drawn in the chart of `column`, in the bar at `x`. */
  predicate InBar(js: Runtime, d: Feature, column: string, x: Value) {
    Truthy(d.Get(column)) && Key(js, d.Get(column)) == x
  }

  /** The rows the clicked bars counted. */
  function Counted(js: Runtime, rows: seq<Feature>, column: string, xs: seq<Value>): seq<Feature> {
    Where(Hits(js, column, xs), rows)
  }

  /** The bars Charts draws: rows with a falsy value are left out first. */
  function ChartBars(js: Runtime, rows: seq<Feature>, column: string): seq<Bar> {
    SortedBars(js, PlotKeys(js, Where(Drawn(column), rows), column))
  }

  /** Exactly the bars Charts draws: those of the rows that have a truthy value there. */
  lemma ChartBarMeaning(js: Runtime, rows: seq<Feature>, column: string, x: Value, n: nat)
    ensures Bar(x, n) in ChartBars(js, rows, column)
            <==> n > 0 && n == |Where(CountedAt(js, column, true, x), Where(Drawn(column), rows))|
  {
    ChartMeaning(js, Where(Drawn(column), rows), column, true, x, n);
  }

  /** Bars that can be clicked together: existing ones, each named once, with a truthy x. */
  predicate Clickable(js: Runtime, rows: seq<Feature>, column: string, xs: seq<Value>) {
    xs != [] && NoRepeats(xs) && forall x <- xs :: Truthy(x) && exists d <- rows :: InBar(js, d, column, x)
  }

  /** Numeric texts of the column are written as JavaScript prints the number, and no
      two values that print alike are drawn in different bars or left out. */
  predicate Canonical(js: Runtime, rows: seq<Feature>, column: string) {
    forall d <- rows | Truthy(d.Get(column)) && Truthy(Key(js, d.Get(column))) ::
      && js.Text(Key(js, d.Get(column))) == js.Text(d.Get(column))
      && forall e <- rows | js.Text(e.Get(column)) == js.Text(d.Get(column)) ::
           InBar(js, e, column, Key(js, d.Get(column)))
  }

  function ClickTest(js: Runtime, column: string, xs: seq<Value>): Test {
    BySelection(map[column := Texts(js, xs)])
  }

  lemma ClickMeets(js: Runtime, d: Feature, column: string, xs: seq<Value>)
    ensures Meets(js, d, ClickTest(js, column, xs)) <==> exists x <- xs :: js.Text(x) == js.Text(d.Get(column))
  {
    var s, text := map[column := Texts(js, xs)], Str(js.Text(d.Get(column)));
    assert Passes(js, d, s) <==> text in s[column];
    if x :| x in xs && js.Text(x) == js.Text(d.Get(column)) {
      assert Str(js.Text(x)) in Texts(js, xs);
    }
    if text in Texts(js, xs) {
      var x :| x in xs && Str(js.Text(x)) == text;
    }
  }

  ghost predicate ClickExact(js: Runtime, rows: seq<Feature>, column: string, xs: seq<Value>) {
    Keep(js, rows, ClickTest(js, column, xs)) == Counted(js, rows, column, xs)
  }

  lemma CanonicalRow(js: Runtime, rows: seq<Feature>, column: string, xs: seq<Value>, d: Feature)
    requires Canonical(js, rows, column) && Clickable(js, rows, column, xs) && d in rows
    ensures (exists x <- xs :: js.Text(x) == js.Text(d.Get(column))) <==> Hits(js, column, xs)(d)
  {
    if x :| x in xs && js.Text(x) == js.Text(d.Get(column)) {
      var e :| e in rows && InBar(js, e, column, x);
      assert js.Text(e.Get(column)) == js.Text(x);
      assert InBar(js, d, column, x);
    }
    if Hits(js, column, xs)(d) {
      assert js.Text(Key(js, d.Get(column))) == js.Text(d.Get(column));
    }
  }

  lemma CanonicalClick(js: Runtime, rows: seq<Feature>, column: string, xs: seq<Value>)
    requires Canonical(js, rows, column) && Clickable(js, rows, column, xs)
    ensures ClickExact(js, rows, column, xs)
  {
    forall d | d in rows
      ensures Meets(js, d, ClickTest(js, column, xs)) <==> Hits(js, column, xs)(d)
    {
      ClickMeets(js, d, column, xs);
      CanonicalRow(js, rows, column, xs, d);
    }
    KeepIsWhere(js, rows, ClickTest(js, column, xs), Hits(js, column, xs));
  }

  /** Clicking bars selects exactly the rows they counted, whichever bars are clicked,
      if and only if the column is canonical. */
  lemma BrushExactness(js: Runtime, rows: seq<Feature>, column: string)
    ensures (forall xs | Clickable(js, rows, column, xs) :: ClickExact(js, rows, column, xs))
            <==> Canonical(js, rows, column)
  {
    if Canonical(js, rows, column) {
      forall xs | Clickable(js, rows, column, xs)
        ensures ClickExact(js, rows, column, xs)
      {
        CanonicalClick(js, rows, column, xs);
      }
    } else if forall xs | Clickable(js, rows, column, xs) :: ClickExact(js, rows, column, xs) {
      forall d | d in rows && Truthy(d.Get(column)) && Truthy(Key(js, d.Get(column)))
        ensures js.Text(Key(js, d.Get(column))) == js.Text(d.Get(column))
        ensures forall e <- rows | js.Text(e.Get(column)) == js.Text(d.Get(column)) ::
                  InBar(js, e, column, Key(js, d.Get(column)))
      {
        var x := Key(js, d.Get(column));
        var xs := [x];
        assert InBar(js, d, column, x);
        assert Clickable(js, rows, column, xs);
        assert ClickExact(js, rows, column, xs);
        var t := ClickTest(js, column, xs);
        KeepMembers(js, rows, t);
        WhereMembers(Hits(js, column, xs), rows);
        ClickMeets(js, d, column, xs);
        assert d in Keep(js, rows, t);
        forall e | e in rows && js.Text(e.Get(column)) == js.Text(d.Get(column))
          ensures InBar(js, e, column, x)
        {
          ClickMeets(js, e, column, xs);
          assert e in Keep(js, rows, t);
        }
      }
    }
  }

  // ---------------------------------------------------------------- bar heights

  function Heights(js: Runtime, rows: seq<Feature>, column: string, xs: seq<Value>): nat {
    if xs == [] then 0
    else multiset(PlotKeys(js, Where(Drawn(column), rows), column))[xs[0]]
         + Heights(js, rows, column, xs[1..])
  }

  lemma {:induction false} OneHeight(js: Runtime, rows: seq<Feature>, column: string, x: Value)
    ensures multiset(PlotKeys(js, Where(Drawn(column), rows), column))[x]
            == |Where(Hits(js, column, [x]), rows)|
  {
    if rows != [] {
      OneHeight(js, rows[1..], column, x);
      var rest := Where(Drawn(column), rows[1..]);
      if Truthy(rows[0].Get(column)) {
        assert Where(Drawn(column), rows) == [rows[0]] + rest;
        assert ([rows[0]] + rest)[1..] == rest;
      } else {
        assert Where(Drawn(column), rows) == rest;
      }
    }
  }

  lemma {:induction false} WhereSplit(p: Feature -> bool, q: Feature -> bool, r: Feature -> bool, rows: seq<Feature>)
    requires forall d <- rows :: p(d) <==> q(d) || r(d)
    requires forall d <- rows :: !(q(d) && r(d))
    ensures |Where(p, rows)| == |Where(q, rows)| + |Where(r, rows)|
  {
    if rows != [] {
      assert rows == [rows[0]] + rows[1..];
      assert rows[0] in rows;
      WhereSplit(p, q, r, rows[1..]);
    }
  }

  /** The rows counted by several bars are as many as the bars' heights together. */
  lemma {:induction false} HeightsCount(js: Runtime, rows: seq<Feature>, column: string, xs: seq<Value>)
    requires NoRepeats(xs)
    ensures Heights(js, rows, column, xs) == |Counted(js, rows, column, xs)|
  {
    if xs == [] {
      WhereMembers(Hits(js, column, xs), rows);
      SomeMember(Counted(js, rows, column, xs));
    } else {
      HeightsCount(js, rows, column, xs[1..]);
      OneHeight(js, rows, column, xs[0]);
      assert xs == [xs[0]] + xs[1..];
      WhereSplit(Hits(js, column, xs),
                 Hits(js, column, [xs[0]]),
                 Hits(js, column, xs[1..]), rows);
    }
  }

  /** Each height is the `y` of a bar that the chart draws. */
  lemma BarHeight(js: Runtime, rows: seq<Feature>, column: string, xs: seq<Value>, x: Value)
    requires Clickable(js, rows, column, xs) && x in xs
    ensures Bar(x, multiset(PlotKeys(js, Where(Drawn(column), rows), column))[x]) in ChartBars(js, rows, column)
  {
    var e :| e in rows && InBar(js, e, column, x);
    OneHeight(js, rows, column, x);
    WhereMembers(Hits(js, column, [x]), rows);
    assert e in Where(Hits(js, column, [x]), rows);
    var keys := PlotKeys(js, Where(Drawn(column), rows), column);
    assert x in multiset(keys);
    SortedBarsMembers(js, keys);
  }

  // ---------------------------------------------------------------- the linked map

  lemma {:induction false} ExtraColumn(js: Runtime, rows: seq<Feature>, s: Selected, column: string, values: set<Value>)
    requires column !in s
    ensures Keep(js, rows, BySelection(s[column := values]))
            == Keep(js, Keep(js, rows, BySelection(s)), BySelection(map[column := values]))
  {
    if rows != [] {
      ExtraColumn(js, rows[1..], s, column, values);
      var t := BySelection(map[column := values]);
      var d := rows[0];
      assert Passes(js, d, s[column := values]) <==> Passes(js, d, s) && Passes(js, d, map[column := values]) by {
        var both := s[column := values];
        if Passes(js, d, both) {
          assert forall c <- s :: c in both && both[c] == s[c];
          assert column in both;
        }
      }
      KeepConcat(js, if Meets(js, d, BySelection(s)) then [d] else [], Keep(js, rows[1..], BySelection(s)), t);
    }
  }

  /** With a coherent cache on screen, clicking bars of a column that is not selected
      yet shows exactly the rows they counted, as many as their heights add up to, and
      never ends in "no results". */
  lemma BrushAndLink(js: Runtime, w: World, column: string, xs: seq<Value>)
    requires w.Valid() && w.linked && ShowsFresh(js, w.home)
    requires column !in w.home.selection
    requires Canonical(js, w.home.filtered.value, column) && Clickable(js, w.home.filtered.value, column, xs)
    ensures var shown := w.home.filtered.value;
            var w1 := Step(js, w, ClickBars(column, xs));
            && w1.linked && w1.home.selection == w.home.selection[column := Texts(js, xs)]
            && w1.home.filtered == Some(Counted(js, shown, column, xs))
            && |Counted(js, shown, column, xs)| == Heights(js, shown, column, xs) > 0
  {
    ClickedRows(js, Located(w.home, w.home.data).value, w.home.selection, column, xs);
    assert xs[0] in xs;
    ClickStep(js, w, column, xs);
  }

  lemma ClickedRows(js: Runtime, all: seq<Feature>, s: Selected, column: string, xs: seq<Value>)
    requires column !in s
    requires Canonical(js, Keep(js, all, BySelection(s)), column)
    requires Clickable(js, Keep(js, all, BySelection(s)), column, xs)
    ensures var counted := Counted(js, Keep(js, all, BySelection(s)), column, xs);
            && Keep(js, all, BySelection(s[column := Texts(js, xs)])) == counted
            && |counted| == Heights(js, Keep(js, all, BySelection(s)), column, xs) > 0
  {
    var shown := Keep(js, all, BySelection(s));
    CanonicalClick(js, shown, column, xs);
    HeightsCount(js, shown, column, xs);
    ExtraColumn(js, all, s, column, Texts(js, xs));
    assert xs[0] in xs;
    var d :| d in shown && InBar(js, d, column, xs[0]);
    WhereMembers(Hits(js, column, xs), shown);
    assert d in Counted(js, shown, column, xs);
  }

  lemma ClickStep(js: Runtime, w: World, column: string, xs: seq<Value>)
    requires w.Valid() && w.linked && w.home.data.Some? && w.home.coords.None?
    requires column !in w.home.selection && xs != [] && Truthy(xs[0])
    requires Fresh(js, w.home, w.home.selection[column := Texts(js, xs)]) != []
    ensures var both := w.home.selection[column := Texts(js, xs)];
            var w1 := Step(js, w, ClickBars(column, xs));
            w1.linked && w1.home.selection == both && w1.home.filtered == Some(Fresh(js, w.home, both))
  {
  }

  /** The severity toggle puts the raw value into the set, while rows are compared as
      text: it selects exactly the rows propertyCount counted under the value if and
      only if that value is a text and no other value prints as it. */
  lemma SeverityExactness(js: Runtime, rows: seq<Feature>, x: Value)
    requires exists d <- rows :: d.Get(SEVERITY) == x
    ensures Keep(js, rows, BySelection(map[SEVERITY := {x}])) == Where(Equals(SEVERITY, x), rows)
            <==> x.Str? && forall d <- rows | js.Text(d.Get(SEVERITY)) == x.s :: d.Get(SEVERITY) == x
  {
    var t := BySelection(map[SEVERITY := {x}]);
    KeepIsWhere(js, rows, t, Equals(SEVERITY, x));
    assert forall d :: Meets(js, d, t) <==> Str(js.Text(d.Get(SEVERITY))) == x;
  }

  /** The rows a severity filter leaves: those that print as the value, if it is a text. */
  lemma SeverityRows(js: Runtime, rows: seq<Feature>, x: Value)
    requires exists d <- rows :: d.Get(SEVERITY) == x
    ensures var kept := Keep(js, rows, BySelection(map[SEVERITY := {x}]));
            if x.Str? then kept == Where(Prints(js, SEVERITY, x.s), rows) != [] else kept == []
  {
    var t := BySelection(map[SEVERITY := {x}]);
    KeepMembers(js, rows, t);
    SomeMember(Keep(js, rows, t));
    assert forall d :: Meets(js, d, t) <==> Str(js.Text(d.Get(SEVERITY))) == x;
    if x.Str? {
      KeepIsWhere(js, rows, t, Prints(js, SEVERITY, x.s));
      var d :| d in rows && d.Get(SEVERITY) == x;
      assert d in Keep(js, rows, t);
    }
  }

  lemma ToggleOn(js: Runtime, w: World, x: Value)
    requires w.Valid() && w.linked && SEVERITY !in w.home.selection
    ensures Step(js, w, ClickSeverity(x)) == AdoptPass(js, EditChart(w, w.home.selection[SEVERITY := {x}]))
  {
    assert SEVERITY in w.home.selection[SEVERITY := {x}];
  }

  /** The toggle on a coherent map, for a severity the chart counts: a text shows the
      rows that print as it, which are the rows counted if and only if no other value
      does; any other value ends in "no results" with the selection changed. */
  lemma SeverityClick(js: Runtime, w: World, x: Value)
    requires w.Valid() && w.linked && ShowsFresh(js, w.home) && SEVERITY !in w.home.selection
    requires exists d <- w.home.filtered.value :: d.Get(SEVERITY) == x
    ensures var shown, both := w.home.filtered.value, w.home.selection[SEVERITY := {x}];
            var w1 := Step(js, w, ClickSeverity(x));
            && w1.linked && w1.home.selection == both
            && (!x.Str? ==> w1.home == w.home.(selection := both) && Fresh(js, w.home, both) == [])
            && (x.Str? ==>
                  && w1.home.filtered == Some(Where(Prints(js, SEVERITY, x.s), shown))
                  && (w1.home.filtered == Some(Where(Equals(SEVERITY, x), shown))
                      <==> forall d <- shown | js.Text(d.Get(SEVERITY)) == x.s :: d.Get(SEVERITY) == x))
  {
    var s := w.home.selection;
    ExtraColumn(js, Located(w.home, w.home.data).value, s, SEVERITY, {x});
    ToggleOn(js, w, x);
    ClickPass(js, w, s[SEVERITY := {x}]);
    SeverityRows(js, w.home.filtered.value, x);
    SeverityExactness(js, w.home.filtered.value, x);
  }

  function Prints(js: Runtime, column: string, text: string): Feature -> bool {
    (d: Feature) => js.Text(d.Get(column)) == text
  }
}
