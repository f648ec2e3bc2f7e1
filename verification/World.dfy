/** Home, the sidebar panels and the charts as one transition system. Panels edit
    the selection object Home holds; Charts edits the one it captured when it was
    constructed. `linked` says that the two are the same object. */
module World {
  import opened JsValues
  import opened Features
  import opened Join
  import opened Pipeline

  datatype World = World(home: HomeState, chart: Selected, linked: bool) {
    /** One object has one content. */
    predicate Valid() {
      linked ==> chart == home.selection
    }
  }

  const SEVERITY := "accident_severity"

  datatype Action =
    | PickValues(column: string, values: seq<string>)   // MultiSelect.onChange inside Variables
    | DropColumns(columns: seq<string>)                 // Variables' column box, in key order
    | ClickBars(column: string, xs: seq<Value>)         // Charts.filterOrReset
    | ClickSeverity(x: Value)                           // the severity toggle of Charts
    | ChooseColumn(name: string)
    | Recolour(name: string)
    | Redraw                                            // layer name, layer options, subset toggle
    | Restyle                                           // map style
    | PinLine(point: seq<real>)
    | Unpin
    | SubsetBounds(inside: Geometry -> bool)
    | RemountCharts
    | ReloadProps(rows: seq<Feature>)                   // the data prop changed
    | Reset(rows: seq<Feature>, geography: Option<Geography>)

  function Ask(f: Filter): Request {
    Request(f, None)
  }

  /** The live object now holds `content`. */
  function EditLive(w: World, content: Selected): World {
    World(w.home.(selection := content), if w.linked then content else w.chart, w.linked)
  }

  /** The object Charts holds now holds `content`. */
  function EditChart(w: World, content: Selected): World {
    World(if w.linked then w.home.(selection := content) else w.home, content, w.linked)
  }

  /** A plain pass changes neither selection object. */
  function HomePass(js: Runtime, w: World, q: Request): World {
    w.(home := Pass(js, w.home, q))
  }

  /** Tabs' forwarding of an edited selection. */
  function Forward(selected: Selected): Filter {
    if selected == map[] then Plain else Multi(selected)
  }

  /** A pass asked for with the chart's own object, which Home adopts on success. */
  function AdoptPass(js: Runtime, w: World): World {
    var o := GenerateLayer(js, w.home, Ask(Multi(w.chart)));
    if o.Layer? then World(o.state, w.chart, true) else w
  }

  function Texts(js: Runtime, xs: seq<Value>): set<Value> {
    set x | x in xs :: Str(js.Text(x))
  }

  function Drop(js: Runtime, w: World, column: string): World {
    if column !in w.home.selection then w
    else
      var content := w.home.selection - {column};
      HomePass(js, EditLive(w, content), Ask(Forward(content)))
  }

  function DropEach(js: Runtime, w: World, columns: seq<string>): World
    decreases |columns|
  {
    if columns == [] then w else DropEach(js, Drop(js, w, columns[0]), columns[1..])
  }

  function PickContent(s: Selected, column: string, values: seq<string>): Selected {
    if values == [] then s - {column} else s[column := set v | v in values :: Str(v)]
  }

  function ClickBarsOn(js: Runtime, w: World, column: string, xs: seq<Value>): World {
    if xs == [] || !Truthy(xs[0]) then w
    else if column in w.chart then HomePass(js, EditChart(w, w.chart - {column}), Ask(Plain))
    else AdoptPass(js, EditChart(w, w.chart[column := Texts(js, xs)]))
  }

  function ClickSeverityOn(js: Runtime, w: World, x: Value): World {
    var content := if SEVERITY in w.chart && x in w.chart[SEVERITY]
                   then w.chart - {SEVERITY} else w.chart[SEVERITY := {x}];
    var w1 := EditChart(w, content);
    if content == map[] then HomePass(js, w1, Ask(Plain)) else AdoptPass(js, w1)
  }

  /** State after `_urlCallback` has stored a new source and before it asks for layers. */
  function Cleared(s: HomeState, rows: seq<Feature>, geography: Option<Geography>): HomeState {
    s.(data := Some(rows), geography := geography, filtered := Some([]), coords := None,
       selection := map[], column := None)
  }

  function Step(js: Runtime, w: World, a: Action): World {
    match a
    case PickValues(column, values) =>
      var content := PickContent(w.home.selection, column, values);
      HomePass(js, EditLive(w, content), Ask(Forward(content)))
    case DropColumns(columns) => DropEach(js, w, columns)
    case ClickBars(column, xs) => ClickBarsOn(js, w, column, xs)
    case ClickSeverity(x) => ClickSeverityOn(js, w, x)
    case ChooseColumn(name) => HomePass(js, w, Ask(Column(name)))
    case Recolour(name) => HomePass(js, w, Request(Plain, Some(name)))
    case Redraw => HomePass(js, w, Ask(Plain))
    case Restyle => HomePass(js, w, Ask(MapStyle))
    case PinLine(point) => HomePass(js, w, Ask(Coords(point)))
    case Unpin => if w.home.coords.Some?
                  then HomePass(js, w.(home := w.home.(coords := None)), Ask(Plain)) else w
    case SubsetBounds(inside) => HomePass(js, w, Ask(BoundsSubset(inside)))
    case RemountCharts => World(w.home, w.home.selection, true)
    case ReloadProps(rows) => w.(home := Reload(js, w.home, rows))
    case Reset(rows, geography) =>
      World(Pass(js, Cleared(w.home, rows, geography), Ask(Plain)), w.chart, false)
  }

  function Run(js: Runtime, w: World, actions: seq<Action>): World
    decreases |actions|
  {
    if actions == [] then w else Run(js, Step(js, w, actions[0]), actions[1..])
  }

  /** Actions that keep the data, the geography and the pin as they are. */
  predicate Steady(a: Action) {
    !a.PinLine? && !a.Unpin? && !a.SubsetBounds? && !a.ReloadProps? && !a.Reset?
  }

  // ---------------------------------------------------------------- coherence over runs

  lemma PassCoherent(js: Runtime, w: World, w1: World, q: Request)
    requires Coherent(js, w.home)
    requires w1.home == w.home.(selection := w1.home.selection)
    requires Unpinned(q.filter)
    requires q.filter.Column? || q.filter.MapStyle? ==> w1.home == w.home
    requires q.filter.Multi? && q.filter.selected != w1.home.selection ==> w1.home == w.home
    ensures Coherent(js, Pass(js, w1.home, q))
  {
    if q.filter.Multi? && q.filter.selected != w1.home.selection {
      if GenerateLayer(js, w.home, q).Layer? {
        FreshPassRestores(js, w.home, q);
      }
    } else if !q.filter.MapStyle? {
      PassStaysCoherent(js, w.home, w1.home.selection, q);
    }
  }

  lemma {:induction false} DropEachCoherent(js: Runtime, w: World, columns: seq<string>)
    requires Coherent(js, w.home)
    ensures Coherent(js, DropEach(js, w, columns).home)
    decreases |columns|
  {
    if columns != [] {
      if columns[0] in w.home.selection {
        var content := w.home.selection - {columns[0]};
        PassCoherent(js, w, EditLive(w, content), Ask(Forward(content)));
      }
      DropEachCoherent(js, Drop(js, w, columns[0]), columns[1..]);
    }
  }

  lemma ChartPassCoherent(js: Runtime, w: World, content: Selected, f: Filter)
    requires Coherent(js, w.home) && (f == Plain || f == Multi(content))
    ensures Coherent(js, Pass(js, EditChart(w, content).home, Ask(f)))
  {
    var w1 := EditChart(w, content);
    assert w1.home == w.home.(selection := w1.home.selection);
    PassCoherent(js, w, w1, Ask(f));
  }

  lemma StepCoherent(js: Runtime, w: World, a: Action)
    requires Coherent(js, w.home) && Steady(a)
    ensures Coherent(js, Step(js, w, a).home)
  {
    match a
    case PickValues(column, values) =>
      var content := PickContent(w.home.selection, column, values);
      PassCoherent(js, w, EditLive(w, content), Ask(Forward(content)));
    case DropColumns(columns) => DropEachCoherent(js, w, columns);
    case ClickBars(column, xs) =>
      if xs != [] && Truthy(xs[0]) {
        if column in w.chart {
          ChartPassCoherent(js, w, w.chart - {column}, Plain);
        } else {
          var content := w.chart[column := Texts(js, xs)];
          ChartPassCoherent(js, w, content, Multi(content));
          KeepOnFailure(js, EditChart(w, content).home, Ask(Multi(content)));
        }
      }
    case ClickSeverity(x) =>
      var content := if SEVERITY in w.chart && x in w.chart[SEVERITY]
                     then w.chart - {SEVERITY} else w.chart[SEVERITY := {x}];
      ChartPassCoherent(js, w, content, Plain);
      ChartPassCoherent(js, w, content, Multi(content));
    case ChooseColumn(name) => PassCoherent(js, w, w, Ask(Column(name)));
    case Recolour(name) => PassCoherent(js, w, w, Request(Plain, Some(name)));
    case Redraw => PassCoherent(js, w, w, Ask(Plain));
    case Restyle => PassCoherent(js, w, w, Ask(MapStyle));
    case RemountCharts =>
  }

  lemma KeepOnFailure(js: Runtime, s: HomeState, q: Request)
    ensures !GenerateLayer(js, s, q).Layer? ==> Pass(js, s, q) == s
  {
  }

  /** The cache theorem: from the first successful load, through any run of steady
      actions, linked or not, a column action answers as if it had started from
      scratch, and the run can go on. */
  lemma {:induction false} CacheCoherence(js: Runtime, w: World, actions: seq<Action>, name: string)
    requires Coherent(js, w.home) && forall a <- actions :: Steady(a)
    ensures var s := Run(js, w, actions).home;
            && Coherent(js, s)
            && var o := GenerateLayer(js, s, Ask(Column(name)));
               if Fresh(js, s, s.selection) == [] then o == NoResults
               else o.Layer? && o.state.filtered == Some(Fresh(js, s, s.selection))
    decreases |actions|
  {
    if actions == [] {
      ColumnAnswersFresh(js, w.home, name, None);
    } else {
      assert actions[0] in actions;
      StepCoherent(js, w, actions[0]);
      CacheCoherence(js, Step(js, w, actions[0]), actions[1..], name);
    }
  }

  // ---------------------------------------------------------------- the shared object

  predicate NoEmptySets(s: Selected) {
    forall column <- s :: s[column] != {}
  }

  /** Both selection objects, whether or not they are one. */
  predicate Populated(w: World) {
    NoEmptySets(w.home.selection) && NoEmptySets(w.chart)
  }

  lemma {:induction false} DropEachShared(js: Runtime, w: World, columns: seq<string>)
    requires w.Valid() && Populated(w)
    ensures var w1 := DropEach(js, w, columns);
            w1.Valid() && w1.linked == w.linked && Populated(w1)
    decreases |columns|
  {
    if columns != [] {
      DropEachShared(js, Drop(js, w, columns[0]), columns[1..]);
    }
  }

  /** What a pass does to the two objects: nothing, unless it carries another one. */
  lemma PassSelections(js: Runtime, w: World, q: Request)
    requires q.filter.Multi? ==> q.filter.selected == w.home.selection
    ensures HomePass(js, w, q).home.selection == w.home.selection
  {
  }

  lemma AdoptShared(js: Runtime, w: World)
    requires w.Valid() && Populated(w)
    ensures var w1 := AdoptPass(js, w); w1.Valid() && Populated(w1) && (w.linked ==> w1.linked)
  {
  }

  lemma ClickShared(js: Runtime, w: World, content: Selected)
    requires w.Valid() && Populated(w) && NoEmptySets(content)
    ensures var w1 := HomePass(js, EditChart(w, content), Ask(Plain));
            w1.Valid() && Populated(w1) && w1.linked == w.linked
    ensures var w2 := AdoptPass(js, EditChart(w, content));
            w2.Valid() && Populated(w2) && (w.linked ==> w2.linked)
  {
    PassSelections(js, EditChart(w, content), Ask(Plain));
    AdoptShared(js, EditChart(w, content));
  }

  lemma PickShared(js: Runtime, w: World, column: string, values: seq<string>)
    requires w.Valid() && Populated(w)
    ensures var w1 := Step(js, w, PickValues(column, values));
            w1.Valid() && Populated(w1) && w1.linked == w.linked
  {
    var content := PickContent(w.home.selection, column, values);
    if values != [] {
      assert Str(values[0]) in content[column];
    }
    PassSelections(js, EditLive(w, content), Ask(Forward(content)));
  }

  lemma StepShared(js: Runtime, w: World, a: Action)
    requires w.Valid() && Populated(w)
    ensures var w1 := Step(js, w, a);
            w1.Valid() && Populated(w1) && (w.linked && !a.Reset? ==> w1.linked)
  {
    match a
    case DropColumns(columns) => DropEachShared(js, w, columns);
    case PickValues(column, values) => PickShared(js, w, column, values);
    case ClickBars(column, xs) =>
      if xs != [] {
        assert Str(js.Text(xs[0])) in Texts(js, xs);
        ClickShared(js, w, w.chart - {column});
        ClickShared(js, w, w.chart[column := Texts(js, xs)]);
      }
    case ClickSeverity(x) =>
      ClickShared(js, w, w.chart - {SEVERITY});
      assert x in {x};
      ClickShared(js, w, w.chart[SEVERITY := {x}]);
    case Unpin => PassSelections(js, w.(home := w.home.(coords := None)), Ask(Plain));
    case ReloadProps(rows) =>
      if rows != [] {
        PassSelections(js, w.(home := w.home.(data := Some(rows))), Ask(Plain));
      }
    case Reset(rows, g) => PassSelections(js, w.(home := Cleared(w.home, rows, g)), Ask(Plain));
    case RemountCharts =>
    case ChooseColumn(name) => PassSelections(js, w, Ask(Column(name)));
    case Recolour(name) => PassSelections(js, w, Request(Plain, Some(name)));
    case Redraw => PassSelections(js, w, Ask(Plain));
    case Restyle => PassSelections(js, w, Ask(MapStyle));
    case PinLine(point) => PassSelections(js, w, Ask(Coords(point)));
    case SubsetBounds(inside) => PassSelections(js, w, Ask(BoundsSubset(inside)));
  }

  lemma {:induction false} DropEachLinked(js: Runtime, w: World, columns: seq<string>)
    ensures DropEach(js, w, columns).linked == w.linked
    decreases |columns|
  {
    if columns != [] {
      DropEachLinked(js, Drop(js, w, columns[0]), columns[1..]);
    }
  }

  /** Without a reset the link between the two objects is never lost. */
  lemma {:induction false} LinkedRun(js: Runtime, w: World, actions: seq<Action>)
    ensures w.linked && (forall a <- actions :: !a.Reset?) ==> Run(js, w, actions).linked
    decreases |actions|
  {
    if actions != [] {
      LinkedRun(js, Step(js, w, actions[0]), actions[1..]);
      assert actions == [actions[0]] + actions[1..];
      if actions[0].DropColumns? {
        DropEachLinked(js, w, actions[0].columns);
      }
    }
  }

  /** The aliasing theorem: until a reset, Charts and the panels edit one and the
      same object Home reads, and no column is ever mapped to an empty set. */
  lemma {:induction false} SharedSelection(js: Runtime, w: World, actions: seq<Action>)
    requires w.Valid() && Populated(w)
    ensures var w1 := Run(js, w, actions);
            && w1.Valid() && Populated(w1)
            && (w.linked && (forall a <- actions :: !a.Reset?) ==> w1.linked && w1.chart == w1.home.selection)
    decreases |actions|
  {
    if actions != [] {
      StepShared(js, w, actions[0]);
      SharedSelection(js, Step(js, w, actions[0]), actions[1..]);
      assert forall a <- actions[1..] :: a in actions;
      assert actions[0] in actions;
    }
  }

  /** Clearing the last column shows every source feature, whatever the cache held. */
  lemma ClearingLastColumn(js: Runtime, w: World, column: string)
    requires w.home.data.Some? && w.home.coords.None?
    requires w.home.selection.Keys == {column}
    requires Located(w.home, w.home.data).value != []
    ensures Step(js, w, PickValues(column, [])).home.filtered == Located(w.home, w.home.data)
    ensures Step(js, w, DropColumns([column])).home.filtered == Located(w.home, w.home.data)
    ensures w.linked && w.Valid() ==>
              forall x | Truthy(x) :: Step(js, w, ClickBars(column, [x])).home.filtered == Located(w.home, w.home.data)
  {
    assert w.home.selection - {column} == map[];
    KeepAll(js, Located(w.home, w.home.data).value, BySelection(map[]));
    assert DropEach(js, w, [column]) == Drop(js, w, column);
  }

  /** Actions that ask for rows without touching a selection. After a reset no bar is
      drawn until one of them, the choice of a column, has been taken. */
  predicate Idle(a: Action) {
    a.ChooseColumn? || a.Recolour? || a.Redraw? || a.Restyle?
  }

  lemma {:induction false} IdleRun(js: Runtime, w: World, idle: seq<Action>)
    requires forall a <- idle :: Idle(a)
    ensures var w1 := Run(js, w, idle);
            && w1.chart == w.chart && w1.linked == w.linked && w1.home.selection == w.home.selection
            && w1.home.data == w.home.data && w1.home.coords == w.home.coords
            && w1.home.geography == w.home.geography
    decreases |idle|
  {
    if idle != [] {
      assert idle[0] in idle;
      IdleRun(js, Step(js, w, idle[0]), idle[1..]);
    }
  }

  /** A reset leaves Charts with the object of the session before it. The first bars
      clicked afterwards put that object back in force as long as some row passes it,
      unless it holds the clicked column already and loses it unnoticed. So the map is
      filtered by exactly the bars clicked if and only if that object was empty and some
      row has one of the values. Home and Charts share one object again exactly when the
      click has shown rows of it. */
  lemma StaleAfterReset(js: Runtime, w: World, rows: seq<Feature>, g: Option<Geography>, idle: seq<Action>,
                        column: string, xs: seq<Value>)
    requires xs != [] && Truthy(xs[0]) && forall a <- idle :: Idle(a)
    ensures var w1 := Run(js, Step(js, w, Reset(rows, g)), idle);
            var w2 := Step(js, w1, ClickBars(column, xs));
            var alone, both := map[column := Texts(js, xs)], w.chart[column := Texts(js, xs)];
            && !w1.linked && w1.chart == w.chart && w1.home.selection == map[]
            && w1.home.data == Some(rows)
            && w2.home.selection == (if column in w.chart || Fresh(js, w1.home, both) == [] then map[] else both)
            && (w2.linked <==> column !in w.chart && Fresh(js, w1.home, both) != [])
            && (w2.home.selection == alone <==> w.chart == map[] && Fresh(js, w1.home, alone) != [])
  {
    var w0 := Step(js, w, Reset(rows, g));
    IdleRun(js, w0, idle);
    StaleClick(js, Run(js, w0, idle), column, xs);
  }

  lemma StaleClick(js: Runtime, w: World, column: string, xs: seq<Value>)
    requires !w.linked && w.home.selection == map[] && w.home.data.Some? && w.home.coords.None?
    requires xs != [] && Truthy(xs[0])
    ensures var alone, both := map[column := Texts(js, xs)], w.chart[column := Texts(js, xs)];
            var after := Step(js, w, ClickBars(column, xs)).home.selection;
            && (Step(js, w, ClickBars(column, xs)).linked <==> column !in w.chart && Fresh(js, w.home, both) != [])
            && after == (if column in w.chart || Fresh(js, w.home, both) == [] then map[] else both)
            && (after == alone <==> w.chart == map[] && Fresh(js, w.home, alone) != [])
  {
    var alone, both := map[column := Texts(js, xs)], w.chart[column := Texts(js, xs)];
    assert alone.Keys == {column};
    if w.chart != map[] && column !in w.chart {
      var kept :| kept in w.chart.Keys;
      assert kept in both && kept !in alone;
    }
  }

  /** The row passes every other selected column and, if any value is left, holds one
      of the values picked. */
  predicate Wanted(js: Runtime, d: Feature, s: Selected, column: string, values: seq<string>) {
    Passes(js, d, s - {column}) && (values == [] || js.Text(d.Get(column)) in values)
  }

  lemma PickMeans(js: Runtime, d: Feature, s: Selected, column: string, values: seq<string>)
    ensures Passes(js, d, PickContent(s, column, values)) <==> Wanted(js, d, s, column, values)
  {
    var content := PickContent(s, column, values);
    if values == [] {
      assert content == s - {column};
    } else {
      assert forall c <- s - {column} :: content[c] == s[c];
      assert content.Keys == (s - {column}).Keys + {column};
      assert Str(js.Text(d.Get(column))) in content[column] <==> js.Text(d.Get(column)) in values;
    }
  }

  /** What an edit in the values box shows: exactly the wanted rows, in their order,
      if there are any; otherwise what was there before. */
  lemma PickShowsExactly(js: Runtime, w: World, column: string, values: seq<string>)
    requires w.home.data.Some? && w.home.coords.None?
    ensures var all, s := Located(w.home, w.home.data).value, w.home.selection;
            var w1 := Step(js, w, PickValues(column, values));
            if exists d <- all :: Wanted(js, d, s, column, values) then
              && w1.home.filtered.Some? && Subsequence(w1.home.filtered.value, all)
              && w1.home.filtered.value == Keep(js, all, BySelection(PickContent(s, column, values)))
              && forall d :: d in w1.home.filtered.value <==> d in all && Wanted(js, d, s, column, values)
            else w1.home.filtered == w.home.filtered
  {
    var all, content := Located(w.home, w.home.data).value, PickContent(w.home.selection, column, values);
    PassFrom(js, w, content);
    KeepMembers(js, all, BySelection(content));
    KeepIsSubsequence(js, all, BySelection(content));
    SomeMember(Keep(js, all, BySelection(content)));
    forall d | d in all
      ensures Passes(js, d, content) <==> Wanted(js, d, w.home.selection, column, values)
    {
      PickMeans(js, d, w.home.selection, column, values);
    }
  }

  /** Clicking a bar and then any bar of the same column again takes the click back:
      selection and rows are as before, even if the first click found nothing. */
  lemma SecondClickUndoes(js: Runtime, w: World, column: string, xs: seq<Value>, ys: seq<Value>)
    requires w.Valid() && w.linked && ShowsFresh(js, w.home) && column !in w.home.selection
    requires xs != [] && Truthy(xs[0]) && ys != [] && Truthy(ys[0])
    ensures var w2 := Step(js, Step(js, w, ClickBars(column, xs)), ClickBars(column, ys));
            w2.linked && w2.home == w.home && w2.chart == w.chart
  {
    var s, t := w.home.selection, w.home.selection[column := Texts(js, xs)];
    var w1 := Step(js, w, ClickBars(column, xs));
    ClickPass(js, w, t);
    assert w1 == AdoptPass(js, EditChart(w, t));
    assert t - {column} == s;
    assert Fresh(js, w1.home.(selection := s), s) == Fresh(js, w.home, s);
    assert Step(js, w1, ClickBars(column, ys)) == HomePass(js, EditChart(w1, s), Ask(Plain));
  }

  /** A chart click on the shared object in closed form. */
  lemma ClickPass(js: Runtime, w: World, content: Selected)
    requires w.Valid() && w.linked && w.home.data.Some? && w.home.coords.None?
    ensures var found := Fresh(js, w.home, content);
            AdoptPass(js, EditChart(w, content))
            == World(w.home.(selection := content, filtered := if found == [] then w.home.filtered else Some(found)),
                     content, true)
  {
  }

  /** The chosen column and colour stay as they are until one is chosen again. */
  lemma {:induction false} SettingsStick(js: Runtime, w: World, actions: seq<Action>)
    ensures (forall a <- actions :: !a.ChooseColumn? && !a.Reset?) ==> Run(js, w, actions).home.column == w.home.column
    ensures (forall a <- actions :: !a.Recolour?) ==> Run(js, w, actions).home.colorName == w.home.colorName
    decreases |actions|
  {
    if actions != [] {
      assert actions == [actions[0]] + actions[1..];
      StepSettings(js, w, actions[0]);
      SettingsStick(js, Step(js, w, actions[0]), actions[1..]);
    }
  }

  /** So after a reset no column is chosen, and Charts draws no bars, until one is. */
  lemma NoColumnAfterReset(js: Runtime, w: World, rows: seq<Feature>, g: Option<Geography>, actions: seq<Action>)
    requires forall a <- actions :: !a.ChooseColumn? && !a.Reset?
    ensures Run(js, Step(js, w, Reset(rows, g)), actions).home.column.None?
  {
    PassSettings(js, Cleared(w.home, rows, g), Ask(Plain));
    SettingsStick(js, Step(js, w, Reset(rows, g)), actions);
  }

  /** A change of style leaves rows and selection alone, coherent or not. */
  lemma RestyleKeeps(js: Runtime, w: World)
    ensures Step(js, w, Restyle) == w
  {
  }

  /** What a choice of column or colour leaves: with some row passing the selection, those
      rows and the choice; otherwise nothing new. */
  lemma ChoiceStored(js: Runtime, w: World, name: string)
    requires Coherent(js, w.home)
    ensures var rows := Fresh(js, w.home, w.home.selection);
            var shown := w.home.(filtered := Some(rows));
            && Step(js, w, ChooseColumn(name))
               == w.(home := if rows == [] then w.home
                             else shown.(column := if name != "" then Some(name) else w.home.column))
            && Step(js, w, Recolour(name))
               == w.(home := if rows == [] then w.home
                             else shown.(colorName := if name != "" then name else w.home.colorName))
  {
    ColumnAnswersFresh(js, w.home, name, None);
  }

  lemma PassSettings(js: Runtime, s: HomeState, q: Request)
    ensures !q.filter.Column? ==> Pass(js, s, q).column == s.column
    ensures q.colorName.None? ==> Pass(js, s, q).colorName == s.colorName
  {
  }

  lemma StepSettings(js: Runtime, w: World, a: Action)
    ensures !a.ChooseColumn? && !a.Reset? ==> Step(js, w, a).home.column == w.home.column
    ensures !a.Recolour? ==> Step(js, w, a).home.colorName == w.home.colorName
  {
    match a
    case DropColumns(columns) => DropEachSettings(js, w, columns);
    case ChooseColumn(name) => PassSettings(js, w.home, Ask(Column(name)));
    case Recolour(name) => PassSettings(js, w.home, Request(Plain, Some(name)));
    case _ =>
  }

  lemma {:induction false} DropEachSettings(js: Runtime, w: World, columns: seq<string>)
    ensures DropEach(js, w, columns).home.column == w.home.column
    ensures DropEach(js, w, columns).home.colorName == w.home.colorName
    decreases |columns|
  {
    if columns != [] {
      DropEachSettings(js, Drop(js, w, columns[0]), columns[1..]);
    }
  }

  // ---------------------------------------------------------------- removing columns

  function Without(s: Selected, columns: seq<string>): Selected {
    s - (set c | c in columns)
  }

  lemma WeakerKeepsMore(js: Runtime, s: HomeState, strict: Selected, weak: Selected)
    requires s.data.Some?
    requires weak.Keys <= strict.Keys && forall c <- weak :: weak[c] == strict[c]
    ensures Fresh(js, s, strict) != [] ==> Fresh(js, s, weak) != []
  {
    var all := Located(s, s.data).value;
    KeepMembers(js, all, BySelection(strict));
    KeepMembers(js, all, BySelection(weak));
    if Fresh(js, s, strict) != [] {
      var d := Fresh(js, s, strict)[0];
      assert d in Fresh(js, s, strict);
      assert d in Fresh(js, s, weak);
    }
  }

  /** Removing several columns one at a time, with a full pass after each, ends in
      the state that one removal and one pass would reach. */
  lemma {:induction false} DropEachIsOnePass(js: Runtime, w: World, columns: seq<string>)
    requires w.Valid() && w.home.data.Some? && w.home.coords.None?
    requires exists c <- columns :: c in w.home.selection
    ensures var content := Without(w.home.selection, columns);
            DropEach(js, w, columns) == HomePass(js, EditLive(w, content), Ask(Forward(content)))
    decreases |columns|
  {
    var column, rest := columns[0], columns[1..];
    assert columns == [column] + rest;
    var w1 := Drop(js, w, column);
    var sel1 := w.home.selection - {column};
    WithoutStep(w.home.selection, column, rest);
    if column in w.home.selection {
      PassSelections(js, EditLive(w, sel1), Ask(Forward(sel1)));
    } else {
      assert sel1 == w.home.selection;
    }
    if c :| c in rest && c in sel1 {
      DropEachIsOnePass(js, w1, rest);
      if column in w.home.selection {
        TwoPassesAreOne(js, w, sel1, Without(sel1, rest));
      }
    } else {
      DropNothing(js, w1, rest);
      assert Without(sel1, rest) == sel1;
    }
  }

  lemma WithoutStep(s: Selected, column: string, rest: seq<string>)
    ensures Without(s, [column] + rest) == Without(s - {column}, rest)
  {
  }

  /** A pass for a stricter selection leaves no trace in a pass for a weaker one. */
  lemma TwoPassesAreOne(js: Runtime, w: World, strict: Selected, weak: Selected)
    requires w.Valid() && w.home.data.Some? && w.home.coords.None?
    requires weak.Keys <= strict.Keys && forall c <- weak :: weak[c] == strict[c]
    ensures var w1 := HomePass(js, EditLive(w, strict), Ask(Forward(strict)));
            HomePass(js, EditLive(w1, weak), Ask(Forward(weak))) == HomePass(js, EditLive(w, weak), Ask(Forward(weak)))
  {
    PassFrom(js, w, strict);
    PassFrom(js, w, weak);
    var w1 := HomePass(js, EditLive(w, strict), Ask(Forward(strict)));
    PassFrom(js, w1, weak);
    assert Fresh(js, w1.home, weak) == Fresh(js, w.home, weak);
    WeakerKeepsMore(js, w.home, strict, weak);
  }

  /** A forwarded edit in closed form. */
  lemma PassFrom(js: Runtime, w: World, content: Selected)
    requires w.home.data.Some? && w.home.coords.None?
    ensures var fresh' := Fresh(js, w.home, content);
            HomePass(js, EditLive(w, content), Ask(Forward(content)))
            == World(w.home.(selection := content, filtered := if fresh' == [] then w.home.filtered else Some(fresh')),
                     if w.linked then content else w.chart, w.linked)
  {
  }

  lemma {:induction false} DropNothing(js: Runtime, w: World, columns: seq<string>)
    requires forall c <- columns :: c !in w.home.selection
    ensures DropEach(js, w, columns) == w
  {
    if columns != [] {
      assert columns[0] in columns;
      DropNothing(js, w, columns[1..]);
    }
  }

  // ---------------------------------------------------------------- pinned runs

  /** Actions that keep a pin and the data it was set on. */
  predicate KeepsPin(a: Action) {
    !a.Unpin? && !a.ReloadProps? && !a.Reset?
  }

  /** The rows shown have only become fewer, and not none. */
  ghost predicate Narrows(before: HomeState, after: HomeState) {
    && after.coords.Some? && Anchored(after)
    && (after.filtered == before.filtered ||
        (before.filtered.Some? && after.filtered.Some? && after.filtered.value != []
         && Subsequence(after.filtered.value, before.filtered.value)))
  }

  lemma NarrowsTransitive(a: HomeState, b: HomeState, c: HomeState)
    requires Narrows(a, b) && Narrows(b, c)
    ensures Narrows(a, c)
  {
    if a.filtered != b.filtered && b.filtered != c.filtered {
      SubsequenceTransitive(c.filtered.value, b.filtered.value, a.filtered.value);
    }
  }

  lemma PassNarrows(js: Runtime, s: HomeState, edited: Selected, q: Request)
    requires s.coords.Some? && Anchored(s)
    ensures Narrows(s, Pass(js, s.(selection := edited), q))
  {
    PinnedPassNarrows(js, s.(selection := edited), q);
  }

  lemma {:induction false} DropEachNarrows(js: Runtime, w: World, columns: seq<string>)
    requires w.home.coords.Some? && Anchored(w.home)
    ensures Narrows(w.home, DropEach(js, w, columns).home)
    decreases |columns|
  {
    if columns != [] {
      var w1 := Drop(js, w, columns[0]);
      if columns[0] in w.home.selection {
        var content := w.home.selection - {columns[0]};
        PassNarrows(js, w.home, content, Ask(Forward(content)));
      }
      DropEachNarrows(js, w1, columns[1..]);
      NarrowsTransitive(w.home, w1.home, DropEach(js, w, columns).home);
    }
  }

  lemma ChartNarrows(js: Runtime, w: World, content: Selected, f: Filter)
    requires w.home.coords.Some? && Anchored(w.home)
    ensures Narrows(w.home, Pass(js, EditChart(w, content).home, Ask(f)))
    ensures Narrows(w.home, EditChart(w, content).home)
  {
    PassNarrows(js, w.home, EditChart(w, content).home.selection, Ask(f));
  }

  lemma StepNarrows(js: Runtime, w: World, a: Action)
    requires w.home.coords.Some? && Anchored(w.home) && KeepsPin(a)
    ensures Narrows(w.home, Step(js, w, a).home)
  {
    var kept := w.home.selection;
    match a
    case PickValues(column, values) =>
      var content := PickContent(kept, column, values);
      PassNarrows(js, w.home, content, Ask(Forward(content)));
    case DropColumns(columns) => DropEachNarrows(js, w, columns);
    case ClickBars(column, xs) =>
      ChartNarrows(js, w, w.chart - {column}, Plain);
      ChartNarrows(js, w, w.chart[column := Texts(js, xs)], Multi(w.chart[column := Texts(js, xs)]));
    case ClickSeverity(x) =>
      var content := if SEVERITY in w.chart && x in w.chart[SEVERITY]
                     then w.chart - {SEVERITY} else w.chart[SEVERITY := {x}];
      ChartNarrows(js, w, content, Plain);
      ChartNarrows(js, w, content, Multi(content));
    case ChooseColumn(name) => PassNarrows(js, w.home, kept, Ask(Column(name)));
    case Recolour(name) => PassNarrows(js, w.home, kept, Request(Plain, Some(name)));
    case Redraw => PassNarrows(js, w.home, kept, Ask(Plain));
    case Restyle => PassNarrows(js, w.home, kept, Ask(MapStyle));
    case PinLine(point) => PassNarrows(js, w.home, kept, Ask(Coords(point)));
    case SubsetBounds(inside) => PassNarrows(js, w.home, kept, Ask(BoundsSubset(inside)));
    case RemountCharts =>
  }

  /** While a line stays pinned, whatever is clicked, the rows shown can only
      shrink, never to nothing. */
  lemma {:induction false} PinnedRunNarrows(js: Runtime, w: World, actions: seq<Action>)
    requires w.home.coords.Some? && Anchored(w.home) && forall a <- actions :: KeepsPin(a)
    ensures Narrows(w.home, Run(js, w, actions).home)
    decreases |actions|
  {
    if actions != [] {
      assert actions[0] in actions;
      StepNarrows(js, w, actions[0]);
      var w1 := Step(js, w, actions[0]);
      PinnedRunNarrows(js, w1, actions[1..]);
      NarrowsTransitive(w.home, w1.home, Run(js, w1, actions[1..]).home);
    }
  }

  /** The row passes the selection and its coordinates have every number of the point. */
  function OnLine(js: Runtime, s: Selected, point: seq<real>): Feature -> bool {
    (d: Feature) => Passes(js, d, s) && forall i | 0 <= i < |point| :: point[i] in d.geometry.points
  }

  /** Pinning a line stores the point and shows exactly the rows on it, in order, if there
      are any, and otherwise does nothing. The rows come from all the data, or, if a line
      is pinned already, from those shown. */
  lemma PinShowsExactly(js: Runtime, w: World, point: seq<real>)
    requires w.home.data.Some?
    requires Located(w.home, if w.home.coords.Some? then w.home.filtered else w.home.data).Some?
    ensures var rows := Located(w.home, if w.home.coords.Some? then w.home.filtered else w.home.data).value;
            var line := Where(OnLine(js, w.home.selection, point), rows);
            Step(js, w, PinLine(point))
            == w.(home := if line == [] then w.home else w.home.(filtered := Some(line), coords := Some(point)))
  {
    var rows := Located(w.home, if w.home.coords.Some? then w.home.filtered else w.home.data).value;
    KeepIsWhere(js, rows, TestOf(w.home, Coords(point)), OnLine(js, w.home.selection, point));
  }

  /** The same from the pinning on: if places that share a key look alike, a line pinned
      after any steady run, with some row on it, only ever narrows the rows it first showed. */
  lemma PinThenNarrows(js: Runtime, w: World, before: seq<Action>, point: seq<real>, later: seq<Action>)
    requires Coherent(js, w.home) && forall a <- before :: Steady(a)
    requires w.home.geography.Some? ==> TwinsAlike(w.home.geography.value, w.home.data.value)
    requires forall a <- later :: KeepsPin(a)
    requires var w1 := Run(js, w, before);
             exists d <- Located(w.home, w.home.data).value :: OnLine(js, w1.home.selection, point)(d)
    ensures var w1 := Run(js, w, before);
            var pinned := Step(js, w1, PinLine(point));
            && pinned.home.coords == Some(point)
            && pinned.home.filtered
               == Some(Where(OnLine(js, w1.home.selection, point), Located(w.home, w.home.data).value))
            && Narrows(pinned.home, Run(js, pinned, later).home)
  {
    var w1 := Run(js, w, before);
    RunSourced(js, w, before);
    CacheCoherence(js, w, before, "");
    assert Located(w1.home, w1.home.data) == Located(w.home, w.home.data);
    PinAnchors(js, w1, point);
    PinnedRunNarrows(js, Step(js, w1, PinLine(point)), later);
  }

  lemma PinAnchors(js: Runtime, w: World, point: seq<real>)
    requires w.home.data.Some? && KeysUsable(w.home) && w.home.coords.None?
    requires w.home.geography.Some? ==> TwinsAlike(w.home.geography.value, w.home.data.value)
    requires exists d <- Located(w.home, w.home.data).value :: OnLine(js, w.home.selection, point)(d)
    ensures var pinned := Step(js, w, PinLine(point)).home;
            && pinned.coords == Some(point) && Anchored(pinned)
            && pinned.filtered
               == Some(Where(OnLine(js, w.home.selection, point), Located(w.home, w.home.data).value))
  {
    var line := Where(OnLine(js, w.home.selection, point), Located(w.home, w.home.data).value);
    PinShowsExactly(js, w, point);
    WhereMembers(OnLine(js, w.home.selection, point), Located(w.home, w.home.data).value);
    SomeMember(line);
    assert line != [];
    PinLayer(js, w.home, point);
    FreshPassAnchors(js, w.home, Ask(Coords(point)));
  }

  /** A pass that stores a pin went through. */
  lemma PinLayer(js: Runtime, s: HomeState, point: seq<real>)
    requires s.coords.None? && Pass(js, s, Ask(Coords(point))).coords.Some?
    ensures GenerateLayer(js, s, Ask(Coords(point))).Layer?
  {
  }

  // ---------------------------------------------------------------- letting go of a pin

  /** Actions that keep the data and the geography. */
  predicate KeepsData(a: Action) {
    !a.ReloadProps? && !a.Reset?
  }

  lemma EditedPassSourced(js: Runtime, s: HomeState, edited: Selected, coords: Option<seq<real>>, q: Request)
    requires Sourced(s)
    ensures var s1 := s.(selection := edited, coords := coords);
            Sourced(s1) && Sourced(Pass(js, s1, q)) && SameSource(s, Pass(js, s1, q))
  {
    var s1 := s.(selection := edited, coords := coords);
    assert Located(s1, s1.data) == Located(s, s.data);
    PassStaysSourced(js, s1, q);
  }

  predicate SameSource(s: HomeState, s1: HomeState) {
    s1.data == s.data && s1.geography == s.geography
  }

  lemma {:induction false} DropEachSourced(js: Runtime, w: World, columns: seq<string>)
    requires Sourced(w.home)
    ensures var s1 := DropEach(js, w, columns).home; Sourced(s1) && SameSource(w.home, s1)
    decreases |columns|
  {
    if columns != [] {
      var content := w.home.selection - {columns[0]};
      EditedPassSourced(js, w.home, content, w.home.coords, Ask(Forward(content)));
      DropEachSourced(js, Drop(js, w, columns[0]), columns[1..]);
    }
  }

  lemma StepSourced(js: Runtime, w: World, a: Action)
    requires Sourced(w.home) && KeepsData(a)
    ensures Sourced(Step(js, w, a).home) && SameSource(w.home, Step(js, w, a).home)
  {
    var s, kept := w.home, w.home.selection;
    match a
    case PickValues(column, values) =>
      var content := PickContent(kept, column, values);
      EditedPassSourced(js, s, content, s.coords, Ask(Forward(content)));
    case DropColumns(columns) => DropEachSourced(js, w, columns);
    case ClickBars(column, xs) =>
      var less, more := w.chart - {column}, w.chart[column := Texts(js, xs)];
      EditedPassSourced(js, s, EditChart(w, less).home.selection, s.coords, Ask(Plain));
      EditedPassSourced(js, s, EditChart(w, more).home.selection, s.coords, Ask(Multi(more)));
    case ClickSeverity(x) =>
      var content := if SEVERITY in w.chart && x in w.chart[SEVERITY]
                     then w.chart - {SEVERITY} else w.chart[SEVERITY := {x}];
      EditedPassSourced(js, s, EditChart(w, content).home.selection, s.coords, Ask(Plain));
      EditedPassSourced(js, s, EditChart(w, content).home.selection, s.coords, Ask(Multi(content)));
    case ChooseColumn(name) => EditedPassSourced(js, s, kept, s.coords, Ask(Column(name)));
    case Recolour(name) => EditedPassSourced(js, s, kept, s.coords, Request(Plain, Some(name)));
    case Redraw => EditedPassSourced(js, s, kept, s.coords, Ask(Plain));
    case Restyle => EditedPassSourced(js, s, kept, s.coords, Ask(MapStyle));
    case PinLine(point) => EditedPassSourced(js, s, kept, s.coords, Ask(Coords(point)));
    case Unpin => EditedPassSourced(js, s, kept, None, Ask(Plain));
    case SubsetBounds(inside) => EditedPassSourced(js, s, kept, s.coords, Ask(BoundsSubset(inside)));
    case RemountCharts =>
  }

  lemma {:induction false} RunSourced(js: Runtime, w: World, actions: seq<Action>)
    requires Sourced(w.home) && forall a <- actions :: KeepsData(a)
    ensures var s1 := Run(js, w, actions).home; Sourced(s1) && SameSource(w.home, s1)
    decreases |actions|
  {
    if actions != [] {
      assert actions[0] in actions;
      StepSourced(js, w, actions[0]);
      RunSourced(js, Step(js, w, actions[0]), actions[1..]);
    }
  }

  /** Whatever was clicked while a line was pinned or the map bounds were applied,
      letting go of the pin brings the cache theorem back: through every steady run that
      follows, the column action answers as a query from scratch. */
  lemma UnpinCoherence(js: Runtime, w: World, before: seq<Action>, later: seq<Action>, name: string)
    requires Sourced(w.home)
    requires forall a <- before :: KeepsData(a)
    requires Run(js, w, before).home.coords.Some? && forall a <- later :: Steady(a)
    ensures var s := Run(js, Step(js, Run(js, w, before), Unpin), later).home;
            && Coherent(js, s)
            && var o := GenerateLayer(js, s, Ask(Column(name)));
               if Fresh(js, s, s.selection) == [] then o == NoResults
               else o.Layer? && o.state.filtered == Some(Fresh(js, s, s.selection))
  {
    var w1 := Run(js, w, before);
    RunSourced(js, w, before);
    UnpinRestores(js, w1.home);
    CacheCoherence(js, Step(js, w1, Unpin), later, name);
  }

  // ---------------------------------------------------------------- the map bounds

  /** Actions whose pass goes over all the data, whatever the cache holds. */
  predicate FullPass(w: World, a: Action) {
    match a
    case PickValues(_, _) => true
    case ClickBars(_, xs) => w.linked && xs != [] && Truthy(xs[0])
    case ClickSeverity(_) => w.linked
    case Recolour(_) => true
    case Redraw => true
    case _ => false
  }

  lemma FullPassRestores(js: Runtime, s: HomeState, edited: Selected, q: Request)
    requires Sourced(s) && s.coords.None?
    requires Unpinned(q.filter) && !q.filter.Column? && !q.filter.MapStyle?
    requires q.filter.Multi? ==> q.filter.selected == edited
    ensures Coherent(js, Pass(js, s.(selection := edited), q))
  {
    var s1 := s.(selection := edited);
    assert Located(s1, s1.data) == Located(s, s.data);
    if GenerateLayer(js, s1, q).Layer? {
      FreshPassRestores(js, s1, q);
    }
  }

  lemma FullStepRestores(js: Runtime, w: World, a: Action)
    requires Sourced(w.home) && w.home.coords.None? && FullPass(w, a)
    ensures Coherent(js, Step(js, w, a).home)
  {
    var s := w.home;
    match a
    case PickValues(column, values) =>
      var content := PickContent(s.selection, column, values);
      FullPassRestores(js, s, content, Ask(Forward(content)));
    case ClickBars(column, xs) =>
      var less, more := w.chart - {column}, w.chart[column := Texts(js, xs)];
      FullPassRestores(js, s, less, Ask(Plain));
      FullPassRestores(js, s, more, Ask(Multi(more)));
      KeepOnFailure(js, EditChart(w, more).home, Ask(Multi(more)));
    case ClickSeverity(x) =>
      var content := if SEVERITY in w.chart && x in w.chart[SEVERITY]
                     then w.chart - {SEVERITY} else w.chart[SEVERITY := {x}];
      FullPassRestores(js, s, content, Ask(Plain));
      FullPassRestores(js, s, content, Ask(Multi(content)));
      KeepOnFailure(js, EditChart(w, content).home, Ask(Multi(content)));
    case Recolour(name) => FullPassRestores(js, s, s.selection, Request(Plain, Some(name)));
    case Redraw => FullPassRestores(js, s, s.selection, Ask(Plain));
  }

  /** Whatever was clicked, map bounds applied included, one action that goes over all
      the data brings the cache theorem back as long as no line is pinned. */
  lemma FullPassCoherence(js: Runtime, w: World, before: seq<Action>, a: Action, later: seq<Action>, name: string)
    requires Sourced(w.home) && forall b <- before :: KeepsData(b)
    requires Run(js, w, before).home.coords.None? && FullPass(Run(js, w, before), a)
    requires forall b <- later :: Steady(b)
    ensures var s := Run(js, Step(js, Run(js, w, before), a), later).home;
            && Coherent(js, s)
            && var o := GenerateLayer(js, s, Ask(Column(name)));
               if Fresh(js, s, s.selection) == [] then o == NoResults
               else o.Layer? && o.state.filtered == Some(Fresh(js, s, s.selection))
  {
    var w1 := Run(js, w, before);
    RunSourced(js, w, before);
    FullStepRestores(js, w1, a);
    CacheCoherence(js, Step(js, w1, a), later, name);
  }

  predicate Inside(inside: Geometry -> bool, d: Feature) {
    d.geometry.kind == "MultiPolygon" || inside(d.geometry)
  }

  lemma {:induction false} BoundedRows(js: Runtime, all: seq<Feature>, s: Selected, inside: Geometry -> bool)
    ensures Keep(js, all, Test(s, None, Some(inside)))
            == Keep(js, Keep(js, all, BySelection(s)), Test(map[], None, Some(inside)))
  {
    if all != [] {
      BoundedRows(js, all[1..], s, inside);
      KeepConcat(js, if Passes(js, all[0], s) then [all[0]] else [], Keep(js, all[1..], BySelection(s)),
                 Test(map[], None, Some(inside)));
    }
  }

  function Bounded(js: Runtime, s: HomeState, inside: Geometry -> bool): seq<Feature>
    requires s.data.Some?
  {
    Keep(js, Fresh(js, s, s.selection), Test(map[], None, Some(inside)))
  }

  lemma BoundedMembers(js: Runtime, s: HomeState, inside: Geometry -> bool)
    requires s.data.Some?
    ensures var fresh' := Fresh(js, s, s.selection);
            && (forall d :: d in Bounded(js, s, inside) <==> d in fresh' && Inside(inside, d))
            && (Bounded(js, s, inside) == fresh' <==> forall d <- fresh' :: Inside(inside, d))
            && forall d <- Bounded(js, s, inside) :: Passes(js, d, s.selection)
  {
    var fresh' := Fresh(js, s, s.selection);
    var u := Test(map[], None, Some(inside));
    KeepMembers(js, fresh', u);
    KeepMembers(js, Located(s, s.data).value, BySelection(s.selection));
    if forall d <- fresh' :: Inside(inside, d) {
      KeepAll(js, fresh', u);
    }
  }

  lemma BoundsPass(js: Runtime, s: HomeState, inside: Geometry -> bool)
    requires ShowsFresh(js, s) && Bounded(js, s, inside) != []
    requires s.geography.Some? ==> TwinsAlike(s.geography.value, s.data.value)
    ensures Pass(js, s, Ask(BoundsSubset(inside))) == s.(filtered := Some(Bounded(js, s, inside)))
    ensures Located(s, Some(Bounded(js, s, inside))) == Some(Bounded(js, s, inside))
  {
    BoundedRows(js, Located(s, s.data).value, s.selection, inside);
    FreshPassAnchors(js, s, Ask(BoundsSubset(inside)));
  }

  /** Until then a column change shows the bounded rows: after the map bounds have been
      applied it answers as a query from scratch if and only if they left nothing out. */
  lemma BoundsStick(js: Runtime, w: World, inside: Geometry -> bool, name: string)
    requires ShowsFresh(js, w.home)
    requires w.home.geography.Some? ==> TwinsAlike(w.home.geography.value, w.home.data.value)
    requires exists d <- w.home.filtered.value :: Inside(inside, d)
    ensures var fresh', bounded := w.home.filtered.value, Bounded(js, w.home, inside);
            var s1 := Step(js, w, SubsetBounds(inside)).home;
            var o := GenerateLayer(js, s1, Ask(Column(name)));
            && s1.filtered == Some(bounded)
            && o.Layer? && o.state.filtered == Some(bounded)
            && fresh' == Fresh(js, s1, s1.selection)
            && (bounded == fresh' <==> forall d <- fresh' :: Inside(inside, d))
  {
    var s, bounded := w.home, Bounded(js, w.home, inside);
    BoundedMembers(js, s, inside);
    var d :| d in s.filtered.value && Inside(inside, d);
    assert d in bounded;
    BoundsPass(js, s, inside);
    var s1 := s.(filtered := Some(bounded));
    assert Step(js, w, SubsetBounds(inside)).home == s1;
    assert Located(s1, s1.data) == Located(s, s.data);
    CacheShown(js, s1, name);
  }

  /** A column change on a cache that the join and the selection leave alone. */
  lemma CacheShown(js: Runtime, s: HomeState, name: string)
    requires s.data.Some? && s.filtered.Some? && s.filtered.value != [] && Located(s, s.filtered) == s.filtered
    requires forall d <- s.filtered.value :: Passes(js, d, s.selection)
    ensures var o := GenerateLayer(js, s, Ask(Column(name))); o.Layer? && o.state.filtered == s.filtered
  {
    KeepAll(js, s.filtered.value, BySelection(s.selection));
  }
}
