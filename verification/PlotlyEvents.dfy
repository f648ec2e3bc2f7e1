/** The listeners a Plotly wrapper registers on its plot, and the record it keeps of them. */
module PlotlyEvents {

  /** The `on*` props. Each names one plot event, `plotly_` and its lower-case name. */
  datatype Event =
    | AfterExport | AfterPlot | Animated | AnimatingFrame | AnimationInterrupted | AutoSize | BeforeExport
    | BeforeHover | ButtonClicked | Click | ClickAnnotation | Deselect | DoubleClick | Framework | Hover
    | LegendClick | LegendDoubleClick | Relayout | Relayouting | Restyle | Redraw | Selected | Selecting
    | SliderChange | SliderEnd | SliderStart | SunburstClick | Transitioning | TransitionInterrupted
    | Unhover | WebGlContextLost

  const EVENT_NAMES: seq<Event> :=
    [AfterExport, AfterPlot, Animated, AnimatingFrame, AnimationInterrupted, AutoSize, BeforeExport,
     BeforeHover, ButtonClicked, Click, ClickAnnotation, Deselect, DoubleClick, Framework, Hover,
     LegendClick, LegendDoubleClick, Relayout, Relayouting, Restyle, Redraw, Selected, Selecting,
     SliderChange, SliderEnd, SliderStart, SunburstClick, Transitioning, TransitionInterrupted,
     Unhover, WebGlContextLost]

  const UPDATE_EVENTS: seq<Event> :=
    [Restyle, Redraw, Relayout, Relayouting, DoubleClick, Animated, SunburstClick]

  /** A registered function: a prop, by identity, or the component's own `handleUpdate`. */
  datatype Listener = Handler(id: nat) | HandleUpdate

  /** `handlers` is the component's record; `listeners` is what the plot holds;
      `updates` are the events `handleUpdate` listens to. */
  datatype Registry = Registry(handlers: map<Event, nat>, listeners: multiset<(Event, Listener)>, updates: set<Event>)

  const EMPTY := Registry(map[], multiset{}, {})

  function Expected(r: Registry, e: Event, l: Listener): nat {
    match l
    case Handler(id) => if e in r.handlers && r.handlers[e] == id then 1 else 0
    case HandleUpdate => if e in r.updates then 1 else 0
  }

  /** The plot holds each recorded handler once and nothing else. */
  ghost predicate Books(r: Registry) {
    forall e, l :: r.listeners[(e, l)] == Expected(r, e, l)
  }

  function Add(r: Registry, e: Event, id: nat): Registry {
    Registry(r.handlers[e := id], r.listeners + multiset{(e, Handler(id))}, r.updates)
  }

  function Remove(r: Registry, e: Event): Registry
    requires e in r.handlers
  {
    Registry(r.handlers - {e}, r.listeners - multiset{(e, Handler(r.handlers[e]))}, r.updates)
  }

  /** One event of syncEventHandlers. */
  function SyncOne(r: Registry, on: map<Event, nat>, e: Event): Registry {
    if e in on && e !in r.handlers then Add(r, e, on[e])
    else if e !in on && e in r.handlers then Remove(r, e)
    else if e in on && on[e] != r.handlers[e] then Add(Remove(r, e), e, on[e])
    else r
  }

  function SyncAll(r: Registry, on: map<Event, nat>, events: seq<Event>): Registry
    decreases |events|
  {
    if events == [] then r else SyncAll(SyncOne(r, on, events[0]), on, events[1..])
  }

  function Attach(r: Registry, events: seq<Event>): Registry
    decreases |events|
  {
    if events == [] then r
    else
      var e := events[0];
      Attach(Registry(r.handlers, r.listeners + multiset{(e, HandleUpdate)}, r.updates + {e}), events[1..])
  }

  function Detach(r: Registry, events: seq<Event>): Registry
    decreases |events|
  {
    if events == [] then r
    else
      var e := events[0];
      Detach(Registry(r.handlers, r.listeners - multiset{(e, HandleUpdate)}, r.updates - {e}), events[1..])
  }

  lemma SyncOneKeeps(r: Registry, on: map<Event, nat>, e: Event)
    requires Books(r)
    ensures Books(SyncOne(r, on, e))
  {
    if e in r.handlers {
      assert r.listeners[(e, Handler(r.handlers[e]))] == 1;
      assert Books(Remove(r, e));
    }
  }

  predicate Agrees(r: Registry, on: map<Event, nat>, e: Event) {
    (e in r.handlers <==> e in on) && (e in on ==> r.handlers[e] == on[e])
  }

  lemma {:induction false} SyncAllAgrees(r: Registry, on: map<Event, nat>, events: seq<Event>)
    requires Books(r)
    ensures var r1 := SyncAll(r, on, events);
            && Books(r1) && r1.updates == r.updates
            && forall e | e in events || Agrees(r, on, e) :: Agrees(r1, on, e)
    decreases |events|
  {
    if events != [] {
      SyncOneKeeps(r, on, events[0]);
      assert events == [events[0]] + events[1..];
      SyncAllAgrees(SyncOne(r, on, events[0]), on, events[1..]);
    }
  }

  lemma NamesComplete()
    ensures HasAll(EVENT_NAMES)
  {
    forall e: Event
      ensures e in EVENT_NAMES
    {
      NameListed(e);
    }
  }

  lemma NameListed(e: Event)
    ensures e in EVENT_NAMES
  {
    match e
    case AfterExport => assert EVENT_NAMES[0] == e;
    case AfterPlot => assert EVENT_NAMES[1] == e;
    case Animated => assert EVENT_NAMES[2] == e;
    case AnimatingFrame => assert EVENT_NAMES[3] == e;
    case AnimationInterrupted => assert EVENT_NAMES[4] == e;
    case AutoSize => assert EVENT_NAMES[5] == e;
    case BeforeExport => assert EVENT_NAMES[6] == e;
    case BeforeHover => assert EVENT_NAMES[7] == e;
    case ButtonClicked => assert EVENT_NAMES[8] == e;
    case Click => assert EVENT_NAMES[9] == e;
    case ClickAnnotation => assert EVENT_NAMES[10] == e;
    case Deselect => assert EVENT_NAMES[11] == e;
    case DoubleClick => assert EVENT_NAMES[12] == e;
    case Framework => assert EVENT_NAMES[13] == e;
    case Hover => assert EVENT_NAMES[14] == e;
    case LegendClick => assert EVENT_NAMES[15] == e;
    case LegendDoubleClick => assert EVENT_NAMES[16] == e;
    case Relayout => assert EVENT_NAMES[17] == e;
    case Relayouting => assert EVENT_NAMES[18] == e;
    case Restyle => assert EVENT_NAMES[19] == e;
    case Redraw => assert EVENT_NAMES[20] == e;
    case Selected => assert EVENT_NAMES[21] == e;
    case Selecting => assert EVENT_NAMES[22] == e;
    case SliderChange => assert EVENT_NAMES[23] == e;
    case SliderEnd => assert EVENT_NAMES[24] == e;
    case SliderStart => assert EVENT_NAMES[25] == e;
    case SunburstClick => assert EVENT_NAMES[26] == e;
    case Transitioning => assert EVENT_NAMES[27] == e;
    case TransitionInterrupted => assert EVENT_NAMES[28] == e;
    case Unhover => assert EVENT_NAMES[29] == e;
    case WebGlContextLost => assert EVENT_NAMES[30] == e;
  }

  /** Going through a list of all event names leaves exactly the current props
      registered, whatever was registered before, and no update listener touched. */
  lemma SyncExact(r: Registry, on: map<Event, nat>, names: seq<Event>)
    requires Books(r) && forall e: Event :: e in names
    ensures var r1 := SyncAll(r, on, names);
            Books(r1) && r1.handlers == on && r1.updates == r.updates
  {
    SyncAllAgrees(r, on, names);
    var r1 := SyncAll(r, on, names);
    forall e: Event
      ensures e in r1.handlers <==> e in on
      ensures e in on ==> r1.handlers[e] == on[e]
    {
      assert e in names;
      assert Agrees(r1, on, e);
    }
    assert r1.handlers.Keys == on.Keys;
  }

  lemma {:induction false} AttachExact(r: Registry, events: seq<Event>)
    requires Books(r) && EachOnce(events) && forall e <- events :: e !in r.updates
    ensures var r1 := Attach(r, events);
            Books(r1) && r1.handlers == r.handlers && r1.updates == r.updates + set e | e in events
    decreases |events|
  {
    if events != [] {
      assert events == [events[0]] + events[1..];
      assert events[0] in events && events[0] !in events[1..];
      var e := events[0];
      AttachExact(Registry(r.handlers, r.listeners + multiset{(e, HandleUpdate)}, r.updates + {e}), events[1..]);
    }
  }

  lemma {:induction false} DetachExact(r: Registry, events: seq<Event>)
    requires Books(r)
    ensures var r1 := Detach(r, events);
            Books(r1) && r1.handlers == r.handlers && r1.updates == r.updates - set e | e in events
    decreases |events|
  {
    if events != [] {
      var e := events[0];
      DetachExact(Registry(r.handlers, r.listeners - multiset{(e, HandleUpdate)}, r.updates - {e}), events[1..]);
      assert events == [events[0]] + events[1..];
    }
  }

  /** The two event lists the component goes through. */
  datatype EventLists = EventLists(names: seq<Event>, updates: seq<Event>) {

    ghost predicate Complete() {
      HasAll(names) && EachOnce(updates)
    }

    function UpdateSet(): set<Event> {
      set e | e in updates
    }
  }

  ghost predicate HasAll(names: seq<Event>) {
    forall e: Event :: e in names
  }

  predicate EachOnce(events: seq<Event>) {
    forall i, j | 0 <= i < j < |events| :: events[i] != events[j]
  }

  lemma UpdateEventsOnce()
    ensures EachOnce(UPDATE_EVENTS)
  {
  }

  const EVENTS := EventLists(EVENT_NAMES, UPDATE_EVENTS)

  lemma EventsComplete()
    ensures EVENTS.Complete()
  {
    NamesComplete();
    UpdateEventsOnce();
  }
}
