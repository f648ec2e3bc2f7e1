/** Home, the selection object, and the sidebar components that edit it in place. */
module Home {
  import opened JsValues
  import opened Features
  import opened Join
  import opened Pipeline
  import opened World

  /** A `multiVarSelect` object: shared by reference, edited by key. */
  class Selection {
    var sets: Selected

    constructor (sets: Selected)
      ensures this.sets == sets
    {
      this.sets := sets;
    }

    method Delete(column: string)
      modifies this
      ensures sets == old(sets) - {column}
    {
      sets := sets - {column};
    }

    method Assign(column: string, values: set<Value>)
      modifies this
      ensures sets == old(sets)[column := values]
    {
      sets := sets[column := values];
    }
  }

  class Home {
    const js: Runtime
    var data: Option<seq<Feature>>
    var filtered: Option<seq<Feature>>
    var geography: Option<Geography>
    var coords: Option<seq<real>>
    var multiVarSelect: Selection
    var column: Option<string>
    var colorName: string

    function State(): HomeState
      reads this, multiVarSelect
    {
      HomeState(data, filtered, geography, coords, multiVarSelect.sets, column, colorName)
    }

    constructor (js: Runtime, select: Selected, column: Option<string>)
      ensures this.js == js && fresh(multiVarSelect)
      ensures State() == HomeState(None, None, None, None, select, column, "default")
    {
      this.js := js;
      data, filtered, geography, coords := None, None, None, None;
      multiVarSelect := new Selection(select);
      this.column := column;
      colorName := "default";
    }

    /** `selected` is the object a `multi` request carries; Home keeps the object
        itself, not a copy. */
    method CallGenerateLayer(q: Request, selected: Selection?)
      requires q.filter.Multi? ==> selected != null && q.filter.selected == selected.sets
      modifies this
      ensures State() == Pass(js, old(State()), q)
      ensures q.filter.Multi? && GenerateLayer(js, old(State()), q).Layer? ==> multiVarSelect == selected
      ensures !(q.filter.Multi? && GenerateLayer(js, old(State()), q).Layer?) ==> multiVarSelect == old(multiVarSelect)
    {
      var o := ComputeLayer(js, State(), q);
      if o.Layer? {
        filtered, column, coords, colorName := o.state.filtered, o.state.column, o.state.coords, o.state.colorName;
        if q.filter.Multi? {
          multiVarSelect := selected;
        }
      }
    }

    /** `_urlCallback` with a new source; the selection object is replaced. */
    method UrlCallback(rows: seq<Feature>, newGeography: Option<Geography>)
      modifies this
      ensures State() == Pass(js, Cleared(old(State()), rows, newGeography), Ask(Plain))
      ensures fresh(multiVarSelect)
    {
      column, coords, filtered, geography := None, None, Some([]), None;
      multiVarSelect := new Selection(map[]);
      data, geography := Some(rows), newGeography;
      CallGenerateLayer(Ask(Plain), null);
    }

    /** A change of the `data` prop: unless it has no features, the data is replaced;
        the cache is not cleared. */
    method InitDataState(rows: seq<Feature>)
      modifies this
      ensures multiVarSelect == old(multiVarSelect)
      ensures State() == Reload(js, old(State()), rows)
    {
      if rows == [] {
        return;
      }
      data := Some(rows);
      CallGenerateLayer(Ask(Plain), null);
    }

    /** A click on the empty map lets go of a pinned line. */
    method ClickMap()
      modifies this
      ensures multiVarSelect == old(multiVarSelect)
      ensures State() == if old(coords).Some?
                         then Pass(js, old(State()).(coords := None), Ask(Plain))
                         else old(State())
    {
      if coords.Some? {
        coords := None;
        CallGenerateLayer(Ask(Plain), null);
      }
    }

    /** Tabs' forwarding callback, given an object some panel has just edited. */
    method TabsForward(mvs: Selection)
      modifies this
      ensures State() == Pass(js, old(State()), Ask(Forward(mvs.sets)))
      ensures multiVarSelect == old(multiVarSelect) || multiVarSelect == mvs
      ensures mvs == old(multiVarSelect) ==> multiVarSelect == mvs
    {
      if mvs.sets == map[] {
        CallGenerateLayer(Ask(Plain), null);
      } else {
        CallGenerateLayer(Ask(Multi(mvs.sets)), mvs);
      }
    }
  }

  class Charts {
    var multiVarSelect: Selection

    /** Charts captures the selection object once, when it is constructed. */
    constructor (home: Home)
      ensures multiVarSelect == home.multiVarSelect
      ensures Together(home) == World(home.State(), home.multiVarSelect.sets, true)
    {
      multiVarSelect := home.multiVarSelect;
    }

    /** Home and Charts as one state. */
    function Together(home: Home): World
      reads this, multiVarSelect, home, home.multiVarSelect
    {
      World(home.State(), multiVarSelect.sets, home.multiVarSelect == multiVarSelect)
    }

    method FilterOrReset(home: Home, column: string, points: seq<Value>)
      modifies home, multiVarSelect
      ensures multiVarSelect == old(multiVarSelect)
      ensures Together(home) == ClickBarsOn(home.js, old(Together(home)), column, points)
      ensures home.multiVarSelect == old(home.multiVarSelect) || home.multiVarSelect == multiVarSelect
    {
      if points == [] || !Truthy(points[0]) {
        return;
      }
      if column in multiVarSelect.sets {
        multiVarSelect.Delete(column);
        home.CallGenerateLayer(Ask(Plain), null);
      } else {
        multiVarSelect.Assign(column, Texts(home.js, points));
        home.CallGenerateLayer(Ask(Multi(multiVarSelect.sets)), multiVarSelect);
      }
    }

    method ToggleSeverity(home: Home, x: Value)
      modifies home, multiVarSelect
      ensures multiVarSelect == old(multiVarSelect)
      ensures Together(home) == ClickSeverityOn(home.js, old(Together(home)), x)
      ensures home.multiVarSelect == old(home.multiVarSelect) || home.multiVarSelect == multiVarSelect
    {
      if SEVERITY in multiVarSelect.sets && x in multiVarSelect.sets[SEVERITY] {
        multiVarSelect.Delete(SEVERITY);
      } else {
        multiVarSelect.Assign(SEVERITY, {x});
      }
      if multiVarSelect.sets == map[] {
        home.CallGenerateLayer(Ask(Plain), null);
      } else {
        home.CallGenerateLayer(Ask(Multi(multiVarSelect.sets)), multiVarSelect);
      }
    }
  }

  /** MultiSelect.onChange below Variables: no value left deletes the column. */
  method ChangeValues(home: Home, ghost charts: Charts, column: string, values: seq<string>)
    modifies home, home.multiVarSelect
    ensures home.multiVarSelect == old(home.multiVarSelect)
    ensures charts.multiVarSelect == old(charts.multiVarSelect)
    ensures charts.Together(home) == Step(home.js, old(charts.Together(home)), PickValues(column, values))
  {
    var selection := home.multiVarSelect;
    if values == [] {
      selection.Delete(column);
    } else {
      selection.Assign(column, set v | v in values :: Str(v));
    }
    home.TabsForward(selection);
  }

  /** Variables' column box: each column no longer chosen is deleted and Home is
      told about it, one after the other. `keys` is `Object.keys` of the selection. */
  method ChangeColumns(home: Home, ghost charts: Charts, keys: seq<string>, chosen: seq<string>)
    modifies home, home.multiVarSelect
    ensures home.multiVarSelect == old(home.multiVarSelect)
    ensures charts.multiVarSelect == old(charts.multiVarSelect)
    ensures charts.Together(home) == DropEach(home.js, old(charts.Together(home)), Dropped(keys, chosen))
  {
    var selection := home.multiVarSelect;
    ghost var before := charts.Together(home);
    for i := 0 to |keys|
      invariant home.multiVarSelect == selection == old(home.multiVarSelect)
      invariant charts.multiVarSelect == old(charts.multiVarSelect)
      invariant DropEach(home.js, charts.Together(home), Dropped(keys[i..], chosen))
                == DropEach(home.js, before, Dropped(keys, chosen))
    {
      var key := keys[i];
      ghost var w := charts.Together(home);
      DroppedHead(keys, i, chosen);
      if key !in chosen {
        if key in selection.sets {
          selection.Delete(key);
          home.TabsForward(selection);
        }
        assert charts.Together(home) == Drop(home.js, w, key);
        DropEachHead(home.js, w, key, Dropped(keys[i + 1..], chosen));
      }
    }
  }

  /** The keys Variables deletes. */
  function Dropped(keys: seq<string>, chosen: seq<string>): seq<string> {
    if keys == [] then []
    else (if keys[0] !in chosen then [keys[0]] else []) + Dropped(keys[1..], chosen)
  }

  lemma DroppedHead(keys: seq<string>, i: nat, chosen: seq<string>)
    requires i < |keys|
    ensures Dropped(keys[i..], chosen)
            == if keys[i] in chosen then Dropped(keys[i + 1..], chosen) else [keys[i]] + Dropped(keys[i + 1..], chosen)
  {
    assert keys[i..][0] == keys[i] && keys[i..][1..] == keys[i + 1..];
  }

  lemma DropEachHead(js: Runtime, w: World, key: string, rest: seq<string>)
    ensures DropEach(js, w, [key] + rest) == DropEach(js, Drop(js, w, key), rest)
  {
    assert ([key] + rest)[1..] == rest;
  }

  lemma {:induction false} DroppedAll(keys: seq<string>)
    ensures Dropped(keys, []) == keys
  {
    if keys != [] {
      DroppedAll(keys[1..]);
    }
  }

  /** One user action on the components themselves. */
  method Act(home: Home, charts: Charts, a: Action) returns (charts': Charts)
    modifies home, home.multiVarSelect, charts.multiVarSelect
    ensures charts'.Together(home) == Step(home.js, old(charts.Together(home)), a)
    ensures home.multiVarSelect in {old(home.multiVarSelect), old(charts.multiVarSelect)} || fresh(home.multiVarSelect)
    ensures charts'.multiVarSelect in {old(home.multiVarSelect), old(charts.multiVarSelect)}
  {
    charts' := charts;
    match a
    case PickValues(column, values) => ChangeValues(home, charts, column, values);
    case DropColumns(columns) =>
      ChangeColumns(home, charts, columns, []);
      DroppedAll(columns);
    case ClickBars(column, xs) => charts.FilterOrReset(home, column, xs);
    case ClickSeverity(x) => charts.ToggleSeverity(home, x);
    case ChooseColumn(name) => home.CallGenerateLayer(Ask(Column(name)), null);
    case Recolour(name) => home.CallGenerateLayer(Request(Plain, Some(name)), null);
    case Redraw => home.CallGenerateLayer(Ask(Plain), null);
    case Restyle => home.CallGenerateLayer(Ask(MapStyle), null);
    case PinLine(point) => home.CallGenerateLayer(Ask(Coords(point)), null);
    case Unpin => home.ClickMap();
    case SubsetBounds(inside) => home.CallGenerateLayer(Ask(BoundsSubset(inside)), null);
    case RemountCharts => charts' := new Charts(home);
    case ReloadProps(rows) => home.InitDataState(rows);
    case Reset(rows, newGeography) => home.UrlCallback(rows, newGeography);
  }

  /** Any sequence of user actions ends in the state the transition system predicts.
      So without a reset Charts and Home still hold one and the same selection object,
      and after steady actions a coherent cache is still coherent. */
  method Play(home: Home, charts: Charts, actions: seq<Action>) returns (last: Charts)
    modifies home, home.multiVarSelect, charts.multiVarSelect
    ensures last.Together(home) == Run(home.js, old(charts.Together(home)), actions)
    ensures old(charts.multiVarSelect == home.multiVarSelect) && (forall a <- actions :: !a.Reset?)
            ==> last.multiVarSelect == home.multiVarSelect
    ensures old(Coherent(home.js, home.State())) && (forall a <- actions :: Steady(a))
            ==> Coherent(home.js, home.State())
  {
    last := charts;
    ghost var before := charts.Together(home);
    for i := 0 to |actions|
      invariant home.multiVarSelect in {old(home.multiVarSelect), old(charts.multiVarSelect)}
                || fresh(home.multiVarSelect)
      invariant last.multiVarSelect in {old(home.multiVarSelect), old(charts.multiVarSelect)}
                || fresh(last.multiVarSelect)
      invariant Run(home.js, last.Together(home), actions[i..]) == Run(home.js, before, actions)
    {
      assert actions[i..][0] == actions[i] && actions[i..][1..] == actions[i + 1..];
      last := Act(home, last, actions[i]);
    }
    LinkedRun(home.js, before, actions);
    if Coherent(home.js, before.home) && forall a <- actions :: Steady(a) {
      CacheCoherence(home.js, before, actions, "");
    }
  }
}
