/** The Plotly wrapper as the class the source writes, proved against the transition system. */
module PlotlyComponents {
  import opened JsValues
  import opened PlotlyEvents
  import opened Plotly

  class PlotlyComponent {
    const events: EventLists
    var props: Props
    var phase: Phase                                   // `unmounting` is `Gone`
    var p: Chain                                       // the promise chain
    var screen: Screen                                 // what Plotly.react was asked to draw
    var handlers: map<Event, nat>
    var listeners: multiset<(Event, Listener)>         // held by the plot
    var updates: set<Event>                            // events with `handleUpdate` on the plot
    var resizeHandler: Option<nat>
    var windowListeners: multiset<nat>                 // held by the window
    var nextId: nat

    function Registered(): Registry
      reads this
    {
      Registry(handlers, listeners, updates)
    }

    function Resizing(): Window
      reads this
    {
      Window(resizeHandler, windowListeners, nextId)
    }

    function Model(): Component
      reads this
    {
      Component(props, phase, p, screen, Registered(), Resizing())
    }

    constructor (events: EventLists, props: Props)
      ensures this.events == events && Model() == Initial(props)
      ensures events.Complete() ==> Inv(events, Model())
    {
      this.events := events;
      this.props := props;
      phase := New;
      p := Chain([], Waiting, false, false);
      screen := Screen(None, 0, false);
      handlers, listeners, updates := map[], multiset{}, {};
      resizeHandler, windowListeners, nextId := None, multiset{}, 0;
      new;
      if events.Complete() {
        InitialInv(events, props);
      }
    }

    method UpdatePlotly(first: bool)
      modifies this`p
      ensures p == old(p).Enqueue(first)
    {
      p := p.Enqueue(first);
    }

    method ComponentDidMount()
      requires phase.New?
      modifies this
      ensures Model() == Step(events, old(Model()), Mount)
    {
      phase := Mounted;
      UpdatePlotly(true);
    }

    /** React has stored `next` as the props and calls componentDidUpdate. */
    method ComponentDidUpdate(next: Props)
      requires phase.Mounted?
      modifies this
      ensures Model() == Step(events, old(Model()), Update(next))
    {
      var prev := props;
      props := next;
      var figureChanged := !(prev.figure == next.figure && next.frames == prev.frames);
      var revisionDefined := prev.revision.Some?;
      var revisionChanged := prev.revision != next.revision;
      if !figureChanged && (!revisionDefined || (revisionDefined && !revisionChanged)) {
        return;
      }
      UpdatePlotly(false);
    }

    /** `purgeThrows`: the `onPurge` prop throws, which keeps the clean-up from happening. */
    method ComponentWillUnmount(purgeThrows: bool)
      requires phase.Mounted?
      modifies this
      ensures Model() == Step(events, old(Model()), Unmount(purgeThrows))
    {
      phase := Gone;
      if purgeThrows {
        return;
      }
      Release();
    }

    method Release()
      modifies this`resizeHandler, this`windowListeners, this`listeners, this`updates
      ensures Resizing() == old(Resizing()).Drop()
      ensures Registered() == Detach(old(Registered()), events.updates)
    {
      DropResizeHandler();
      RemoveUpdateEvents();
    }

    method DropResizeHandler()
      modifies this`resizeHandler, this`windowListeners
      ensures Resizing() == old(Resizing()).Drop()
    {
      if resizeHandler.Some? {
        windowListeners := windowListeners - multiset{resizeHandler.value};
        resizeHandler := None;
      }
    }

    method AddEventHandler(e: Event, prop: nat)
      modifies this`handlers, this`listeners
      ensures Registered() == Add(old(Registered()), e, prop)
    {
      handlers := handlers[e := prop];
      listeners := listeners + multiset{(e, Handler(prop))};
    }

    method RemoveEventHandler(e: Event)
      requires e in handlers
      modifies this`handlers, this`listeners
      ensures Registered() == Remove(old(Registered()), e)
    {
      listeners := listeners - multiset{(e, Handler(handlers[e]))};
      handlers := handlers - {e};
    }

    method SyncEventHandlers()
      modifies this`handlers, this`listeners
      ensures Registered() == SyncAll(old(Registered()), props.on, events.names)
    {
      for i := 0 to |events.names|
        invariant SyncAll(Registered(), props.on, events.names[i..])
                  == SyncAll(old(Registered()), props.on, events.names)
      {
        var eventName := events.names[i];
        assert events.names[i..][0] == eventName && events.names[i..][1..] == events.names[i + 1..];
        if eventName in props.on && eventName !in handlers {
          AddEventHandler(eventName, props.on[eventName]);
        } else if eventName !in props.on && eventName in handlers {
          RemoveEventHandler(eventName);
        } else if eventName in props.on && eventName in handlers && props.on[eventName] != handlers[eventName] {
          RemoveEventHandler(eventName);
          AddEventHandler(eventName, props.on[eventName]);
        }
      }
    }

    method AttachUpdateEvents()
      modifies this`listeners, this`updates
      ensures Registered() == Attach(old(Registered()), events.updates)
    {
      for i := 0 to |events.updates|
        invariant Attach(Registered(), events.updates[i..]) == Attach(old(Registered()), events.updates)
      {
        var updateEvent := events.updates[i];
        assert events.updates[i..][0] == updateEvent && events.updates[i..][1..] == events.updates[i + 1..];
        listeners := listeners + multiset{(updateEvent, HandleUpdate)};
        updates := updates + {updateEvent};
      }
    }

    method RemoveUpdateEvents()
      modifies this`listeners, this`updates
      ensures Registered() == Detach(old(Registered()), events.updates)
    {
      for i := 0 to |events.updates|
        invariant Detach(Registered(), events.updates[i..]) == Detach(old(Registered()), events.updates)
      {
        var updateEvent := events.updates[i];
        assert events.updates[i..][0] == updateEvent && events.updates[i..][1..] == events.updates[i + 1..];
        listeners := listeners - multiset{(updateEvent, HandleUpdate)};
        updates := updates - {updateEvent};
      }
    }

    method SyncWindowResize()
      modifies this`resizeHandler, this`windowListeners, this`nextId
      ensures Resizing() == old(Resizing()).Sync(props.useResizeHandler)
    {
      if props.useResizeHandler && resizeHandler.None? {
        resizeHandler := Some(nextId);
        windowListeners := windowListeners + multiset{nextId};
        nextId := nextId + 1;
      } else if !props.useResizeHandler && resizeHandler.Some? {
        DropResizeHandler();
      }
    }

    /** First step of a task: draw the props of this moment, unless unmounting. */
    method Draw()
      requires Enabled(Model(), StartDraw)
      modifies this
      ensures Model() == Step(events, old(Model()), StartDraw)
    {
      if p.poisoned {
        p := p.(stage := Failing);
        screen := screen.(failed := true);
      } else if phase.Gone? {
        p := p.(stage := Drawn);
      } else {
        screen := Screen(Some(props.figure), screen.calls + 1, screen.failed);
        p := p.(stage := Drawing);
      }
    }

    /** The promise Plotly.react returned resolves or rejects. */
    method DrawSettles(ok: bool)
      requires Enabled(Model(), Settle(ok))
      modifies this
      ensures Model() == Step(events, old(Model()), Settle(ok))
    {
      p := p.(stage := if ok then Drawn else Failing);
      screen := screen.(failed := !ok);
    }

    /** Second step of a task; `outcome` says which foreign call throws, if any. */
    method AfterDraw(outcome: SyncOutcome)
      requires Enabled(Model(), Synchronise(outcome))
      modifies this
      ensures Model() == Step(events, old(Model()), Synchronise(outcome))
    {
      if phase.Gone? {
        p := p.Dequeue();
      } else {
        SynchroniseMounted(outcome);
      }
    }

    method SynchroniseMounted(outcome: SyncOutcome)
      requires p.tasks != []
      modifies this`p, this`resizeHandler, this`windowListeners, this`nextId
      modifies this`handlers, this`listeners, this`updates
      ensures var synced := SyncAll(old(Registered()), props.on, events.names);
              var attached := if old(p).tasks[0] then Attach(synced, events.updates) else synced;
              Model() == Finish(old(Model()), outcome, old(Resizing()).Sync(props.useResizeHandler), synced, attached)
    {
      var first, held := p.tasks[0], resizeHandler.Some?;
      SyncWindowResize();
      // the new handler is invoked at once for the mounting task
      if first && !held && resizeHandler.Some? && outcome.ResizeThrows? {
        p := p.(stage := Failing);
        return;
      }
      SyncListeners(first, outcome.CallbackThrows?);
    }

    method SyncListeners(first: bool, throws: bool)
      requires p.tasks != []
      modifies this`p, this`handlers, this`listeners, this`updates
      ensures var synced := SyncAll(old(Registered()), props.on, events.names);
              && Registered() == (if first && !throws then Attach(synced, events.updates) else synced)
              && p == if throws then old(p).(stage := Failing) else old(p).Dequeue().(synced := true)
    {
      SyncEventHandlers();
      if throws {
        p := p.(stage := Failing);
        return;
      }
      if first {
        AttachUpdateEvents();
      }
      p := p.Dequeue().(synced := true);
    }

    /** The closing catch; a throwing onError leaves the chain rejected. */
    method OnFailure(throws: bool)
      requires Enabled(Model(), Catch(throws))
      modifies this
      ensures Model() == Step(events, old(Model()), Catch(throws))
    {
      p := p.Dequeue().(poisoned := throws && props.hasOnError, synced := false);
    }

    /** One move of the environment: a React callback or the next step of the chain. */
    method Take(m: Move)
      modifies this
      ensures Model() == Step(events, old(Model()), m)
    {
      if !Enabled(Model(), m) {
        return;
      }
      match m
      case Mount => ComponentDidMount();
      case Update(next) => ComponentDidUpdate(next);
      case Unmount(purgeThrows) => ComponentWillUnmount(purgeThrows);
      case StartDraw => Draw();
      case Settle(ok) => DrawSettles(ok);
      case Synchronise(outcome) => AfterDraw(outcome);
      case Catch(throws) => OnFailure(throws);
    }

    /** Any sequence of moves on the object ends in the state the transition system
        predicts, so that what is proved of its runs holds of the object. */
    method Play(moves: seq<Move>)
      modifies this
      ensures Model() == Run(events, old(Model()), moves)
      ensures old(Inv(events, Model())) ==>
                && Inv(events, Model()) && ListenersAsRecorded(events, Model())
                && (Quiet(Model()) ==> screen.drawn == Some(props.figure))
      ensures old(Inv(events, Model()) && phase.New?) && phase.Gone? && Unmount(true) !in moves ==> CleanedUp(Model())
    {
      ghost var before := Model();
      for i := 0 to |moves|
        invariant Run(events, Model(), moves[i..]) == Run(events, before, moves)
      {
        assert moves[i..][0] == moves[i] && moves[i..][1..] == moves[i + 1..];
        Take(moves[i]);
      }
      if Inv(events, before) {
        RunKeepsInv(events, before, moves);
        BooksKept(events, Model());
        if before.phase.New? && Unmount(true) !in moves {
          GoneIsClean(events, before, moves);
        }
      }
    }
  }
}
