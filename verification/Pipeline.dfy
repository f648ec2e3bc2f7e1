/** The data part of generateLayer and of the Home state it reads and replaces. */
module Pipeline {
  import opened JsValues
  import opened Features
  import opened Join

  /** `filtered` is the row cache; `coords` is set while a line is pinned. */
  datatype HomeState = HomeState(
    data: Option<seq<Feature>>,
    filtered: Option<seq<Feature>>,
    geography: Option<Geography>,
    coords: Option<seq<real>>,
    selection: Selected,
    column: Option<string>,
    colorName: string)

  /** The `what` of a request. `Plain` is no filter, or a `what` the rows do not depend on. */
  datatype Filter =
    | Plain
    | MapStyle
    | Column(name: string)
    | Multi(selected: Selected)
    | Coords(point: seq<real>)
    | BoundsSubset(inside: Geometry -> bool)

  datatype Request = Request(filter: Filter, colorName: Option<string>)

  /** `Ignored` leaves the rows alone, `NoResults` only raises the alert, and
      `Crash` is the TypeError of filtering a cache that was never filled. */
  datatype Outcome = Ignored | NoResults | Crash | Layer(state: HomeState)

  function Source(s: HomeState, f: Filter): Option<seq<Feature>> {
    if s.coords.Some? || f.Column? then s.filtered else s.data
  }

  function Located(s: HomeState, rows: Option<seq<Feature>>): Option<seq<Feature>> {
    if s.geography.Some? then Some(Locate(s.geography.value, rows)) else rows
  }

  function TestOf(s: HomeState, f: Filter): Test {
    Test(if f.Multi? then f.selected else s.selection,
         if f.Coords? then Some(f.point) else None,
         if f.BoundsSubset? then Some(f.inside) else None)
  }

  /** filterGeojson has nothing to test and hands its input back. */
  predicate Untested(s: HomeState, f: Filter) {
    !f.Multi? && s.selection == map[] && !f.Coords? && !f.BoundsSubset?
  }

  function Updated(s: HomeState, q: Request, kept: seq<Feature>): HomeState {
    s.(filtered := Some(kept),
       selection := if q.filter.Multi? then q.filter.selected else s.selection,
       column := if q.filter.Column? && q.filter.name != "" then Some(q.filter.name) else s.column,
       coords := if q.filter.Coords? then Some(q.filter.point) else s.coords,
       colorName := if q.colorName.Some? && q.colorName.value != "" then q.colorName.value else s.colorName)
  }

  function GenerateLayer(js: Runtime, s: HomeState, q: Request): Outcome {
    if q.filter.MapStyle? || s.data.None? then Ignored
    else
      match Located(s, Source(s, q.filter))
      case None => if Untested(s, q.filter) then NoResults else Crash
      case Some(rows) =>
        var kept := Keep(js, rows, TestOf(s, q.filter));
        if kept == [] then NoResults else Layer(Updated(s, q, kept))
  }

  /** The state after `_callGenerateLayer`. */
  function Pass(js: Runtime, s: HomeState, q: Request): HomeState {
    var o := GenerateLayer(js, s, q);
    if o.Layer? then o.state else s
  }

  /** generateLayer, reassigning `data` step by step as the source does. */
  method ComputeLayer(js: Runtime, s: HomeState, q: Request) returns (o: Outcome)
    ensures o == GenerateLayer(js, s, q)
  {
    var filter := q.filter;
    if filter.MapStyle? || s.data.None? {
      return Ignored;
    }
    var data := s.data;
    if s.coords.Some? || filter.Column? {
      data := s.filtered;
    }
    if s.geography.Some? {
      var joined := SetGeojsonProps(s.geography.value, data);
      data := Some(joined);
    }
    var t := TestOf(s, filter);
    if Untested(s, filter) {
      if data.Some? {
        KeepAll(js, data.value, t);
      }
    } else {
      if data.None? {
        return Crash;
      }
      var kept := FilterGeojson(js, data.value, t);
      data := Some(kept);
    }
    if data.None? || data.value == [] {
      return NoResults;
    }
    return Layer(Updated(s, q, data.value));
  }

  // ---------------------------------------------------------------- cache coherence

  /** The rows of a from-scratch query: all data, located, filtered by `selected`. */
  function Fresh(js: Runtime, s: HomeState, selected: Selected): seq<Feature>
    requires s.data.Some?
  {
    Keep(js, Located(s, s.data).value, BySelection(selected))
  }

  /** With a separate geography, the join goes through and its keys are usable. */
  predicate KeysUsable(s: HomeState)
    requires s.data.Some?
  {
    s.geography.Some? ==>
      && Joinable(s.geography.value, s.data.value)
      && forall r <- s.data.value :: Truthy(r.Get(s.geography.value.dataColumn))
  }

  /** The cache holds some of the located rows, as any successful pass leaves it. */
  predicate Sourced(s: HomeState) {
    && s.data.Some? && KeysUsable(s)
    && s.filtered.Some? && s.filtered.value != []
    && forall d <- s.filtered.value :: d in Located(s, s.data).value
  }

  /** The cache is the from-scratch answer for the selection in force. */
  predicate ShowsFresh(js: Runtime, s: HomeState) {
    Sourced(s) && s.coords.None? && s.filtered.value == Fresh(js, s, s.selection)
  }

  /** ... or no row passes that selection, and the cache is left from an earlier pass. */
  predicate Coherent(js: Runtime, s: HomeState) {
    Sourced(s) && s.coords.None? && (ShowsFresh(js, s) || Fresh(js, s, s.selection) == [])
  }

  /** Requests whose rows depend on the data and the selection alone. */
  predicate Unpinned(f: Filter) {
    !f.Coords? && !f.BoundsSubset?
  }

  /** Reading the cache through the join brings up no row that the data has not. */
  lemma CacheSourced(s: HomeState)
    requires Sourced(s)
    ensures Located(s, s.filtered).Some?
    ensures forall d <- Located(s, s.filtered).value :: d in Located(s, s.data).value
  {
    if s.geography.Some? {
      var g, rows, cache := s.geography.value, s.data.value, s.filtered.value;
      var joined := JoinRows(g.features, rows, g.dataColumn, g.geoColumn);
      assert cache[0] in cache;
      JoinedKeysTruthy(g, rows, cache[0]);
      forall e | e in JoinRows(g.features, cache, g.dataColumn, g.geoColumn)
        ensures e in joined
      {
        JoinedRowOrigin(g.features, cache, g.dataColumn, g.geoColumn, e);
        var k := FirstMatch(cache, g.dataColumn, e.Get(g.dataColumn)).value;
        FirstMatchHolds(cache, g.dataColumn, e.Get(g.dataColumn));
        JoinedRowOrigin(g.features, rows, g.dataColumn, g.geoColumn, k);
        var p :| p in g.features && p.Get(g.geoColumn) == e.Get(g.dataColumn) && e == Combine(p, k);
        JoinedRowPresent(g.features, rows, g.dataColumn, g.geoColumn, p);
      }
    }
  }

  /** Every pass leaves some of the located rows in the cache, whatever it tests. */
  lemma PassStaysSourced(js: Runtime, s: HomeState, q: Request)
    requires Sourced(s)
    ensures Sourced(Pass(js, s, q))
  {
    if GenerateLayer(js, s, q).Layer? {
      CacheSourced(s);
      KeepMembers(js, Located(s, Source(s, q.filter)).value, TestOf(s, q.filter));
      var s1 := Pass(js, s, q);
      assert Located(s1, s1.data) == Located(s, s.data);
    }
  }

  /** Re-filtering the cache gives the from-scratch answer for the selection in
      force, also after an edit that left no results. */
  lemma CacheAnswersFresh(js: Runtime, s: HomeState)
    requires Coherent(js, s)
    ensures Located(s, s.filtered).Some?
    ensures Keep(js, Located(s, s.filtered).value, BySelection(s.selection)) == Fresh(js, s, s.selection)
  {
    var all, t := Located(s, s.data).value, BySelection(s.selection);
    CacheSourced(s);
    if Fresh(js, s, s.selection) == [] {
      var cache := Located(s, s.filtered).value;
      KeepMembers(js, all, t);
      KeepMembers(js, cache, t);
      SomeMember(Keep(js, cache, t));
    } else {
      KeepIdempotent(js, all, t);
      if s.geography.Some? {
        FirstKeyTruthy(js, s.geography.value, s.data.value, t);
        RejoinStability(js, s.geography.value, s.data.value, s.selection);
      }
    }
  }

  /** The column action, which starts from the cache, always returns exactly what a
      query over all the data would. */
  lemma ColumnAnswersFresh(js: Runtime, s: HomeState, name: string, cn: Option<string>)
    requires Coherent(js, s)
    ensures var o := GenerateLayer(js, s, Request(Column(name), cn));
            if Fresh(js, s, s.selection) == [] then o == NoResults
            else o.Layer? && o.state.filtered == Some(Fresh(js, s, s.selection))
  {
    CacheAnswersFresh(js, s);
  }

  /** One pass, started from whatever selection the edit left, keeps coherence. */
  lemma PassStaysCoherent(js: Runtime, s: HomeState, edited: Selected, q: Request)
    requires Coherent(js, s)
    requires Unpinned(q.filter) && !q.filter.MapStyle?
    requires q.filter.Column? ==> edited == s.selection
    requires q.filter.Multi? ==> q.filter.selected == edited
    ensures Coherent(js, Pass(js, s.(selection := edited), q))
  {
    var s1 := s.(selection := edited);
    assert Located(s1, s1.data) == Located(s, s.data);
    if q.filter.Column? {
      ColumnAnswersFresh(js, s1, q.filter.name, q.colorName);
    }
    PassStaysSourced(js, s1, q);
    var s2 := Pass(js, s1, q);
    assert Fresh(js, s2, edited) == Fresh(js, s1, edited);
  }

  /** Any successful pass over all the data restores coherence, whatever the cache held. */
  lemma FreshPassRestores(js: Runtime, s: HomeState, q: Request)
    requires s.data.Some? && KeysUsable(s) && s.coords.None?
    requires Unpinned(q.filter) && !q.filter.Column?
    requires GenerateLayer(js, s, q).Layer?
    ensures ShowsFresh(js, Pass(js, s, q))
  {
    var s1 := Pass(js, s, q);
    assert Located(s1, s1.data) == Located(s, s.data);
    assert Fresh(js, s1, s1.selection) == Fresh(js, s, s1.selection);
    KeepMembers(js, Located(s, s.data).value, TestOf(s, q.filter));
  }

  /** Letting go of a pinned line makes the cache coherent again, whatever was done to
      rows and selection while the line was pinned. */
  lemma UnpinRestores(js: Runtime, s: HomeState)
    requires Sourced(s)
    ensures Coherent(js, Pass(js, s.(coords := None), Request(Plain, None)))
  {
    var s1 := s.(coords := None);
    assert Located(s1, s1.data) == Located(s, s.data);
    if GenerateLayer(js, s1, Request(Plain, None)).Layer? {
      FreshPassRestores(js, s1, Request(Plain, None));
    }
  }

  /** A change of the `data` prop; one without features is ignored. */
  function Reload(js: Runtime, s: HomeState, rows: seq<Feature>): HomeState {
    if rows == [] then s else Pass(js, s.(data := Some(rows)), Request(Plain, None))
  }

  /** Replacing the data without clearing the cache, as a change of the `data` prop
      does: the column action then answers for the new data exactly when the new
      data has a matching row or the old data had none. */
  lemma ReloadCoherence(js: Runtime, s: HomeState, newData: seq<Feature>, name: string)
    requires Coherent(js, s)
    requires newData != [] ==> KeysUsable(s.(data := Some(newData)))
    ensures var s1 := Reload(js, s, newData);
            var o := GenerateLayer(js, s1, Request(Column(name), None));
            var answer := if o.Layer? then o.state.filtered else Some([]);
            answer == Some(Fresh(js, s1, s.selection))
            <==> Fresh(js, s1, s.selection) != [] || Fresh(js, s, s.selection) == []
  {
    CacheAnswersFresh(js, s);
    var loaded := s.(data := Some(newData));
    var s1 := Reload(js, s, newData);
    if newData == [] {
      ColumnAnswersFresh(js, s, name, None);
    } else {
      assert Located(loaded, loaded.data) == Located(s1, s1.data);
      assert Fresh(js, s1, s.selection) == Fresh(js, loaded, s.selection);
      if Fresh(js, loaded, s.selection) != [] {
        FreshPassRestores(js, loaded, Request(Plain, None));
        ColumnAnswersFresh(js, s1, name, None);
      } else {
        assert s1 == loaded && Located(s1, s1.filtered) == Located(s, s.filtered);
      }
    }
  }

  // ---------------------------------------------------------------- a pinned line

  /** With a separate geography, the rows shown come out of the join unchanged, and so
      will any part of them. */
  ghost predicate Anchored(s: HomeState) {
    s.geography.Some? ==>
      var g := s.geography.value;
      && s.filtered.Some? && Joinable(g, s.filtered.value)
      && (forall r <- s.filtered.value :: Truthy(r.Get(g.dataColumn)))
      && TwinsAlike(g, s.filtered.value)
      && Locate(g, s.filtered) == s.filtered.value
  }

  /** With usable keys and places that look alike if they share one, the pass that pins
      a line leaves an anchored state, and so does every other pass over the data. */
  lemma FreshPassAnchors(js: Runtime, s: HomeState, q: Request)
    requires s.data.Some? && KeysUsable(s) && s.coords.None? && !q.filter.Column?
    requires s.geography.Some? ==> TwinsAlike(s.geography.value, s.data.value)
    requires GenerateLayer(js, s, q).Layer?
    ensures Anchored(Pass(js, s, q))
  {
    if s.geography.Some? {
      CutAnchored(js, s.geography.value, s.data.value, TestOf(s, q.filter));
    }
  }

  lemma CutAnchored(js: Runtime, g: Geography, rows: seq<Feature>, t: Test)
    requires Joinable(g, rows) && TwinsAlike(g, rows)
    requires forall r <- rows :: Truthy(r.Get(g.dataColumn))
    requires Keep(js, Locate(g, Some(rows)), t) != []
    ensures var cut := Keep(js, Locate(g, Some(rows)), t);
            && Joinable(g, cut) && TwinsAlike(g, cut) && Locate(g, Some(cut)) == cut
            && forall r <- cut :: Truthy(r.Get(g.dataColumn))
  {
    var cut := Keep(js, Locate(g, Some(rows)), t);
    TwinsNeverSevered(js, g, rows, t);
    KeepMembers(js, Locate(g, Some(rows)), t);
    forall r | r in cut
      ensures Truthy(r.Get(g.dataColumn))
    {
      JoinedKeysTruthy(g, rows, r);
    }
    assert cut[0] in cut;
    forall p | p in g.features && FirstMatch(cut, g.dataColumn, p.Get(g.geoColumn)).Some?
      ensures FirstMatch(rows, g.dataColumn, p.Get(g.geoColumn)).Some?
    {
      LookupInResult(js, g.features, rows, g.dataColumn, g.geoColumn, t, p.Get(g.geoColumn));
    }
  }

  /** While a line stays pinned, a successful pass only narrows the rows shown, keeps
      some, and all of them pass the selection; and the next pass will do the same. */
  lemma PinnedPassNarrows(js: Runtime, s: HomeState, q: Request)
    requires s.coords.Some? && Anchored(s)
    ensures var o := GenerateLayer(js, s, q);
            o.Layer? ==>
              && s.filtered.Some? && o.state.filtered.Some? && o.state.filtered.value != []
              && Subsequence(o.state.filtered.value, s.filtered.value)
              && (forall d <- o.state.filtered.value :: Passes(js, d, o.state.selection))
              && Anchored(o.state)
  {
    if GenerateLayer(js, s, q).Layer? {
      KeepIsSubsequence(js, s.filtered.value, TestOf(s, q.filter));
      KeepMembers(js, s.filtered.value, TestOf(s, q.filter));
      if s.geography.Some? {
        CutAnchored(js, s.geography.value, s.filtered.value, TestOf(s, q.filter));
      }
    }
  }

  /** What the look of the places is needed for: rows that a pinned line cut out of the
      join survive a redraw if and only if no place was severed; otherwise some of the
      places that were cut away come back. */
  lemma PinnedRedrawExact(js: Runtime, s: HomeState, t: Test)
    requires s.coords.Some? && s.geography.Some? && s.data.Some? && KeysUsable(s)
    requires s.filtered == Some(Keep(js, Located(s, s.data).value, t)) && s.filtered.value != []
    requires forall d <- s.filtered.value :: Passes(js, d, s.selection)
    ensures var g := s.geography.value;
            var o := GenerateLayer(js, s, Request(Plain, None));
            && o.Layer? && Subsequence(s.filtered.value, o.state.filtered.value)
            && (o.state.filtered == s.filtered
                <==> forall p <- g.features :: !Severed(js, p, g.features, s.data.value, g.dataColumn, g.geoColumn, t))
  {
    var g, rows, cut := s.geography.value, s.data.value, s.filtered.value;
    FirstKeyTruthy(js, g, rows, t);
    RejoinExactness(js, g, rows, t);
    var again := Locate(g, Some(cut));
    forall e | e in again
      ensures Meets(js, e, BySelection(s.selection))
    {
      JoinedRowOrigin(g.features, cut, g.dataColumn, g.geoColumn, e);
      FirstMatchHolds(cut, g.dataColumn, e.Get(g.dataColumn));
      var m := FirstMatch(cut, g.dataColumn, e.Get(g.dataColumn)).value;
      assert forall column :: e.Get(column) == m.Get(column);
    }
    KeepAll(js, again, BySelection(s.selection));
    SubsequenceLength(cut, again);
  }
}
