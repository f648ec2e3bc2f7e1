/** What single actions do to the selection and to the rows, told from the rows. */
module Effects {
  import opened JsValues
  import opened Features
  import opened Join
  import opened Pipeline
  import opened World

  /** The rows of the present data, joined if need be. */
  function All(s: HomeState): seq<Feature>
    requires s.data.Some?
  {
    if s.geography.None? then s.data.value else Locate(s.geography.value, s.data)
  }

  function PassesAll(js: Runtime, s: Selected): Feature -> bool {
    (d: Feature) => Passes(js, d, s)
  }

  /** The state with another selection, showing the given rows if there are any. */
  function Showing(s: HomeState, selection: Selected, rows: seq<Feature>): HomeState {
    s.(selection := selection, filtered := if rows == [] then s.filtered else Some(rows))
  }

  lemma KeepSelected(js: Runtime, rows: seq<Feature>, s: Selected)
    ensures Keep(js, rows, BySelection(s)) == Where(PassesAll(js, s), rows)
  {
    KeepIsWhere(js, rows, BySelection(s), PassesAll(js, s));
  }

  // ---------------------------------------------------------------- the severity toggle

  /** The row prints as severity `x` and passes the other columns. */
  function WithSeverity(js: Runtime, s: Selected, x: Value): Feature -> bool {
    (d: Feature) => Str(js.Text(d.Get(SEVERITY))) == x && Passes(js, d, s - {SEVERITY})
  }

  lemma SeverityMeans(js: Runtime, d: Feature, s: Selected, x: Value)
    ensures Passes(js, d, s[SEVERITY := {x}]) <==> WithSeverity(js, s, x)(d)
  {
    var t, rest := s[SEVERITY := {x}], s - {SEVERITY};
    assert t.Keys == rest.Keys + {SEVERITY};
    assert forall c <- rest :: t[c] == rest[c];
    assert SEVERITY in t && t[SEVERITY] == {x};
  }

  /** A click on a severity that is not selected selects it alone, whichever was selected
      before, and shows the rows that print as it and pass the other columns. */
  lemma SeveritySelects(js: Runtime, w: World, x: Value)
    requires w.Valid() && w.linked && w.home.data.Some? && w.home.coords.None?
    requires SEVERITY in w.home.selection ==> x !in w.home.selection[SEVERITY]
    ensures var s := w.home.selection;
            var t := s[SEVERITY := {x}];
            Step(js, w, ClickSeverity(x))
            == World(Showing(w.home, t, Where(WithSeverity(js, s, x), All(w.home))), t, true)
  {
    var s, all := w.home.selection, All(w.home);
    var t := s[SEVERITY := {x}];
    assert SEVERITY in t;
    ClickPass(js, w, t);
    KeepSelected(js, all, t);
    forall d | d in all
      ensures PassesAll(js, t)(d) <==> WithSeverity(js, s, x)(d)
    {
      SeverityMeans(js, d, s, x);
    }
    WhereSame(PassesAll(js, t), WithSeverity(js, s, x), all);
  }

  /** A click on the selected severity removes the column and shows the rows that pass the
      others. */
  lemma SeverityDeselects(js: Runtime, w: World, x: Value)
    requires w.Valid() && w.linked && w.home.data.Some? && w.home.coords.None?
    requires SEVERITY in w.home.selection && x in w.home.selection[SEVERITY]
    ensures var rest := w.home.selection - {SEVERITY};
            Step(js, w, ClickSeverity(x))
            == World(Showing(w.home, rest, Where(PassesAll(js, rest), All(w.home))), rest, true)
  {
    var rest := w.home.selection - {SEVERITY};
    KeepSelected(js, All(w.home), rest);
    if rest != map[] {
      ClickPass(js, w, rest);
    }
  }

  /** So two clicks on one severity restore selection and rows, also after a click that
      found nothing, and toggling off the last column shows every row. */
  lemma SeverityTwice(js: Runtime, w: World, x: Value)
    requires w.Valid() && w.linked && ShowsFresh(js, w.home) && SEVERITY !in w.home.selection
    ensures Step(js, Step(js, w, ClickSeverity(x)), ClickSeverity(x)) == w
  {
    var s := w.home.selection;
    SeveritySelects(js, w, x);
    var w1 := Step(js, w, ClickSeverity(x));
    assert All(w1.home) == All(w.home);
    SeverityDeselects(js, w1, x);
    assert s[SEVERITY := {x}] - {SEVERITY} == s;
    KeepSelected(js, All(w.home), s);
  }

  lemma SeverityLast(js: Runtime, w: World, x: Value)
    requires w.Valid() && w.linked && w.home.data.Some? && w.home.coords.None?
    requires w.home.selection.Keys == {SEVERITY} && x in w.home.selection[SEVERITY]
    requires All(w.home) != []
    ensures var w1 := Step(js, w, ClickSeverity(x));
            w1.home.selection == map[] && w1.home.filtered == Some(All(w.home))
  {
    SeverityDeselects(js, w, x);
    assert w.home.selection - {SEVERITY} == map[];
    KeepSelected(js, All(w.home), map[]);
    KeepAll(js, All(w.home), BySelection(map[]));
  }

  // ---------------------------------------------------------------- new data

  /** A reset leaves the new rows, all of them shown, and no pin, column or selection. */
  lemma ResetShows(js: Runtime, w: World, rows: seq<Feature>, g: Option<Geography>)
    ensures var shown := if g.None? then rows else Locate(g.value, Some(rows));
            Step(js, w, Reset(rows, g))
            == World(HomeState(Some(rows), Some(shown), g, None, map[], None, w.home.colorName), w.chart, false)
  {
    var shown := if g.None? then rows else Locate(g.value, Some(rows));
    KeepAll(js, shown, BySelection(map[]));
  }

  /** Mounting Charts again makes it edit the object Home reads. */
  lemma RemountShares(js: Runtime, w: World)
    ensures Step(js, w, RemountCharts) == World(w.home, w.home.selection, true)
  {
  }

  /** Which cures a reset: the first bars clicked afterwards are then the only filter. */
  lemma RemountCures(js: Runtime, w: World, rows: seq<Feature>, g: Option<Geography>, idle: seq<Action>,
                     column: string, xs: seq<Value>)
    requires xs != [] && Truthy(xs[0]) && forall a <- idle :: Idle(a)
    ensures var w1 := Run(js, Step(js, Step(js, w, Reset(rows, g)), RemountCharts), idle);
            var w2 := Step(js, w1, ClickBars(column, xs));
            w2.linked && w2.home.selection == w2.chart == map[column := Texts(js, xs)]
  {
    ResetShows(js, w, rows, g);
    var w0 := Step(js, Step(js, w, Reset(rows, g)), RemountCharts);
    IdleRun(js, w0, idle);
    var w1 := Run(js, w0, idle);
    assert map[][column := Texts(js, xs)] == map[column := Texts(js, xs)];
    ClickPass(js, w1, map[column := Texts(js, xs)]);
  }

  /** A changed `data` prop with features replaces the data, and shows what of it passes
      the selection, if anything. */
  lemma ReloadShows(js: Runtime, w: World, rows: seq<Feature>)
    requires w.home.coords.None?
    ensures var loaded := w.home.(data := Some(rows));
            Step(js, w, ReloadProps(rows))
            == if rows == [] then w
               else w.(home := Showing(loaded, w.home.selection, Where(PassesAll(js, w.home.selection), All(loaded))))
  {
    KeepSelected(js, All(w.home.(data := Some(rows))), w.home.selection);
  }

  // ---------------------------------------------------------------- before any rows were shown

  /** If the selection Home starts with leaves no row, the cache is never filled, and
      choosing a column then fails, unless there is a separate geography. */
  lemma EarlyChoiceCrashes(js: Runtime, s: HomeState, rows: seq<Feature>, name: string)
    requires s.filtered.None? && s.coords.None? && s.geography.None? && s.selection != map[] && rows != []
    ensures GenerateLayer(js, Reload(js, s, rows), Ask(Column(name))) == Crash
            <==> forall d <- rows :: !Passes(js, d, s.selection)
  {
    KeepMembers(js, rows, BySelection(s.selection));
    SomeMember(Keep(js, rows, BySelection(s.selection)));
    var loaded := Reload(js, s, rows);
    if forall d <- rows :: !Passes(js, d, s.selection) {
      assert loaded == s.(data := Some(rows));
    }
  }

  /** Once rows have been shown nothing fails any more, whatever is clicked. */
  lemma NeverCrashes(js: Runtime, w: World, actions: seq<Action>, q: Request)
    requires Sourced(w.home) && forall a <- actions :: KeepsData(a)
    ensures GenerateLayer(js, Run(js, w, actions).home, q) != Crash
  {
    RunSourced(js, w, actions);
  }
}
