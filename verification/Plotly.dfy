/** The Plotly wrapper component as a transition system: prop updates interleave
    freely with the steps of a serial queue of drawing tasks. */
module Plotly {
  import opened JsValues
  import opened PlotlyEvents

  /** Data, layout and configuration objects, by identity. */
  datatype Figure = Figure(data: nat, layout: nat, config: nat)

  /** `frames` is how many frames there are, `on` the truthy `on*` props. */
  datatype Props = Props(figure: Figure, frames: nat, revision: Option<nat>, useResizeHandler: bool,
                         on: map<Event, nat>, hasOnError: bool)

  datatype Phase = New | Mounted | Gone

  /** Where the task at the head of the queue stands. */
  datatype Stage = Waiting | Drawing | Drawn | Failing

  /** The promise chain. A task is `true` for the mounting task, which alone invokes the
      resize handler and attaches update events. `poisoned` means the chain ended
      rejected; `synced` that the last task finished its second step. */
  datatype Chain = Chain(tasks: seq<bool>, stage: Stage, poisoned: bool, synced: bool) {

    function Enqueue(first: bool): Chain {
      this.(tasks := tasks + [first])
    }

    function Dequeue(): Chain
      requires tasks != []
    {
      this.(tasks := tasks[1..], stage := Waiting)
    }
  }

  /** The figure last handed to Plotly.react, how often that happened, and whether the
      last drawing was skipped or rejected. */
  datatype Screen = Screen(drawn: Option<Figure>, calls: nat, failed: bool)

  /** The window's resize listeners and the handler the component holds. */
  datatype Window = Window(handler: Option<nat>, listeners: multiset<nat>, nextId: nat) {

    function Drop(): Window {
      if handler.Some? then Window(None, listeners - multiset{handler.value}, nextId) else this
    }

    /** syncWindowResize */
    function Sync(use: bool): Window {
      if use && handler.None? then Window(Some(nextId), listeners + multiset{nextId}, nextId + 1)
      else if !use then Drop()
      else this
    }

    predicate Books() {
      listeners == if handler.Some? then multiset{handler.value} else multiset{}
    }
  }

  datatype Component = Component(props: Props, phase: Phase, chain: Chain, screen: Screen,
                                 registry: Registry, window: Window)

  datatype SyncOutcome = AllDone | ResizeThrows | CallbackThrows

  datatype Move =
    | Mount
    | Update(next: Props)
    | Unmount(purgeThrows: bool)      // the user's onPurge comes before the clean-up
    | StartDraw
    | Settle(ok: bool)
    | Synchronise(outcome: SyncOutcome)
    | Catch(throws: bool)

  function Initial(props: Props): Component {
    Component(props, New, Chain([], Waiting, false, false), Screen(None, 0, false), EMPTY,
              Window(None, multiset{}, 0))
  }

  /** componentDidUpdate goes on to redraw. */
  predicate ShouldRedraw(prev: Props, next: Props) {
    var figureChanged := !(prev.figure == next.figure && prev.frames == next.frames);
    figureChanged || (prev.revision.Some? && prev.revision != next.revision)
  }

  predicate Enabled(c: Component, m: Move) {
    match m
    case Mount => c.phase.New?
    case Update(_) => c.phase.Mounted?
    case Unmount(_) => c.phase.Mounted?
    case StartDraw => c.chain.tasks != [] && c.chain.stage.Waiting?
    case Settle(_) => c.chain.tasks != [] && c.chain.stage.Drawing?
    case Synchronise(_) => c.chain.tasks != [] && c.chain.stage.Drawn?
    case Catch(_) => c.chain.tasks != [] && c.chain.stage.Failing?
  }

  /** The second step of a task. */
  function Synchronised(ev: EventLists, c: Component, outcome: SyncOutcome): Component
    requires c.chain.tasks != []
  {
    if c.phase.Gone? then c.(chain := c.chain.Dequeue())
    else
      var synced := SyncAll(c.registry, c.props.on, ev.names);
      var attached := if c.chain.tasks[0] then Attach(synced, ev.updates) else synced;
      Finish(c, outcome, c.window.Sync(c.props.useResizeHandler), synced, attached)
  }

  /** Whatever throws keeps the rest of the step from happening. */
  function Finish(c: Component, outcome: SyncOutcome, window: Window, synced: Registry, attached: Registry): Component
    requires c.chain.tasks != []
  {
    if outcome.ResizeThrows? && c.chain.tasks[0] && c.window.handler.None? && window.handler.Some? then
      c.(window := window, chain := c.chain.(stage := Failing))
    else if outcome.CallbackThrows? then
      c.(window := window, registry := synced, chain := c.chain.(stage := Failing))
    else
      c.(window := window, registry := attached, chain := c.chain.Dequeue().(synced := true))
  }

  function Step(ev: EventLists, c: Component, m: Move): Component {
    if !Enabled(c, m) then c
    else
      match m
      case Mount => c.(phase := Mounted, chain := c.chain.Enqueue(true))
      case Update(next) =>
        c.(props := next, chain := if ShouldRedraw(c.props, next) then c.chain.Enqueue(false) else c.chain)
      case Unmount(purgeThrows) =>
        if purgeThrows then c.(phase := Gone)
        else c.(phase := Gone, window := c.window.Drop(), registry := Detach(c.registry, ev.updates))
      case StartDraw =>
        if c.chain.poisoned then c.(chain := c.chain.(stage := Failing), screen := c.screen.(failed := true))
        else if c.phase.Gone? then c.(chain := c.chain.(stage := Drawn))
        else c.(chain := c.chain.(stage := Drawing),
                screen := Screen(Some(c.props.figure), c.screen.calls + 1, c.screen.failed))
      case Settle(ok) =>
        c.(chain := c.chain.(stage := if ok then Drawn else Failing), screen := c.screen.(failed := !ok))
      case Synchronise(outcome) => Synchronised(ev, c, outcome)
      case Catch(throws) =>
        c.(chain := c.chain.Dequeue().(poisoned := throws && c.props.hasOnError, synced := false))
  }

  function Run(ev: EventLists, c: Component, moves: seq<Move>): Component
    decreases |moves|
  {
    if moves == [] then c else Run(ev, Step(ev, c, moves[0]), moves[1..])
  }

  // ---------------------------------------------------------------- invariants

  predicate Undrawn(chain: Chain) {
    |chain.tasks| >= 2 || (|chain.tasks| == 1 && chain.stage.Waiting?)
  }

  /** What is on screen: the current figure, unless a drawing is still to start or
      the last one failed. */
  predicate ScreenCurrent(c: Component) {
    c.phase.Mounted? && !Undrawn(c.chain) ==>
      || c.screen.drawn == Some(c.props.figure)
      || (c.screen.failed && (c.chain.tasks == [] || c.chain.stage.Failing?))
  }

  /** Only the head of the queue can be the mounting task, and update events are
      attached only once it is done. */
  predicate ChainBooks(c: Component) {
    && (forall i | 0 <= i < |c.chain.tasks| :: c.chain.tasks[i] ==> i == 0 && c.registry.updates == {})
    && (c.phase.New? ==> c.chain.tasks == [] && c.registry.updates == {})
    && (c.chain.tasks == [] ==> c.chain.stage.Waiting?)
  }

  ghost predicate ListenersOk(ev: EventLists, c: Component) {
    && ev.Complete() && Books(c.registry) && c.window.Books()
    && (c.registry.updates == {} || c.registry.updates == ev.UpdateSet())
  }

  /** Nothing the component registered on its own account is left. */
  predicate Clean(c: Component) {
    c.registry.updates == {} && c.window.handler.None?
  }

  ghost predicate Inv(ev: EventLists, c: Component) {
    ScreenCurrent(c) && ChainBooks(c) && ListenersOk(ev, c)
  }

  lemma SyncWindowBooks(w: Window, use: bool)
    requires w.Books()
    ensures w.Sync(use).Books() && w.Drop().Books() && w.Drop().handler.None?
  {
  }

  lemma SyncRegistry(ev: EventLists, c: Component)
    requires ListenersOk(ev, c)
    ensures var r := SyncAll(c.registry, c.props.on, ev.names);
            Books(r) && r.handlers == c.props.on && r.updates == c.registry.updates
  {
    SyncExact(c.registry, c.props.on, ev.names);
  }

  lemma AttachRegistry(ev: EventLists, r: Registry, first: bool)
    requires ev.Complete() && Books(r) && (first ==> r.updates == {})
    ensures var r1 := if first then Attach(r, ev.updates) else r;
            Books(r1) && r1.handlers == r.handlers && r1.updates == if first then ev.UpdateSet() else r.updates
  {
    if first {
      AttachExact(r, ev.updates);
    }
  }

  lemma FinishKeepsInv(ev: EventLists, c: Component, outcome: SyncOutcome,
                       window: Window, synced: Registry, attached: Registry)
    requires Inv(ev, c) && c.chain.tasks != [] && c.chain.stage.Drawn? && c.phase.Mounted?
    requires window.Books() && Books(synced) && Books(attached)
    requires synced.updates == c.registry.updates
    requires attached.updates == if c.chain.tasks[0] then ev.UpdateSet() else synced.updates
    ensures Inv(ev, Finish(c, outcome, window, synced, attached))
  {
  }

  lemma SyncKeepsInv(ev: EventLists, c: Component, outcome: SyncOutcome)
    requires Inv(ev, c) && c.chain.tasks != [] && c.chain.stage.Drawn?
    ensures Inv(ev, Synchronised(ev, c, outcome))
    ensures c.phase.Mounted? && outcome.AllDone? ==> Synchronised(ev, c, outcome).registry.handlers == c.props.on
    ensures c.phase.Mounted? && Synchronised(ev, c, outcome).chain.tasks != c.chain.tasks ==>
              Synchronised(ev, c, outcome).registry.handlers == c.props.on
  {
    if c.phase.Mounted? {
      SyncWindowBooks(c.window, c.props.useResizeHandler);
      SyncRegistry(ev, c);
      var synced := SyncAll(c.registry, c.props.on, ev.names);
      AttachRegistry(ev, synced, c.chain.tasks[0]);
      var attached := if c.chain.tasks[0] then Attach(synced, ev.updates) else synced;
      FinishKeepsInv(ev, c, outcome, c.window.Sync(c.props.useResizeHandler), synced, attached);
    }
  }

  lemma StepKeepsInv(ev: EventLists, c: Component, m: Move)
    requires Inv(ev, c)
    ensures Inv(ev, Step(ev, c, m))
  {
    if Enabled(c, m) {
      match m
      case Synchronise(outcome) => SyncKeepsInv(ev, c, outcome);
      case Unmount(_) =>
        SyncWindowBooks(c.window, false);
        DetachExact(c.registry, ev.updates);
      case _ =>
    }
  }

  lemma {:induction false} RunKeepsInv(ev: EventLists, c: Component, moves: seq<Move>)
    requires Inv(ev, c)
    ensures Inv(ev, Run(ev, c, moves))
    decreases |moves|
  {
    if moves != [] {
      StepKeepsInv(ev, c, moves[0]);
      RunKeepsInv(ev, Step(ev, c, moves[0]), moves[1..]);
    }
  }

  lemma InitialInv(ev: EventLists, props: Props)
    requires ev.Complete()
    ensures Inv(ev, Initial(props))
  {
  }

  // ---------------------------------------------------------------- theorems over all runs

  /** Nothing is queued and the last drawing did not fail. */
  predicate Quiet(c: Component) {
    c.phase.Mounted? && c.chain.tasks == [] && !c.screen.failed
  }

  /** Whenever a mounted component has nothing queued and its last drawing did not
      fail, the figure last drawn is the one in its current props. */
  lemma Quiescence(ev: EventLists, props: Props, moves: seq<Move>)
    requires ev.Complete()
    ensures var c := Run(ev, Initial(props), moves);
            Quiet(c) ==> c.screen.drawn == Some(c.props.figure)
  {
    InitialInv(ev, props);
    RunKeepsInv(ev, Initial(props), moves);
  }

  /** Unmounting without a throwing `onPurge` cleans up, and nothing comes back. */
  lemma {:induction false} GoneIsClean(ev: EventLists, c: Component, moves: seq<Move>)
    requires Inv(ev, c) && Unmount(true) !in moves && (c.phase.Gone? ==> Clean(c))
    ensures Run(ev, c, moves).phase.Gone? ==> Clean(Run(ev, c, moves))
    decreases |moves|
  {
    if moves != [] {
      assert moves[0] in moves;
      StepKeepsInv(ev, c, moves[0]);
      StepStaysClean(ev, c, moves[0]);
      GoneIsClean(ev, Step(ev, c, moves[0]), moves[1..]);
    }
  }

  lemma StepStaysClean(ev: EventLists, c: Component, m: Move)
    requires Inv(ev, c) && m != Unmount(true) && (c.phase.Gone? ==> Clean(c))
    ensures Step(ev, c, m).phase.Gone? ==> Clean(Step(ev, c, m))
  {
    if c.phase.Gone? {
      SilentStep(ev, c, m);
    } else if m.Unmount? {
      UnmountCleans(ev, c);
    } else {
      StaysHere(ev, c, m);
    }
  }

  lemma StaysHere(ev: EventLists, c: Component, m: Move)
    ensures !c.phase.Gone? && !m.Unmount? ==> !Step(ev, c, m).phase.Gone?
  {
  }

  lemma UnmountCleans(ev: EventLists, c: Component)
    requires Inv(ev, c)
    ensures Clean(c.(window := c.window.Drop(), registry := Detach(c.registry, ev.updates)))
  {
    DetachExact(c.registry, ev.updates);
  }

  /** What the listeners are in a state: each recorded handler once, and nothing else
      but `handleUpdate` once per event it is recorded for; a resize listener exactly
      while the component holds its handler. */
  ghost predicate ListenersAsRecorded(ev: EventLists, c: Component) {
    && (forall e, id :: c.registry.listeners[(e, Handler(id))]
                        == if e in c.registry.handlers && c.registry.handlers[e] == id then 1 else 0)
    && (forall e :: c.registry.listeners[(e, HandleUpdate)] <= if e in ev.updates then 1 else 0)
    && (forall id :: c.window.listeners[id] == if c.window.handler == Some(id) then 1 else 0)
  }

  /** No `handleUpdate` and no resize listener is left. */
  ghost predicate CleanedUp(c: Component) {
    (forall e :: c.registry.listeners[(e, HandleUpdate)] == 0) && c.window.listeners == multiset{}
  }

  lemma BooksKept(ev: EventLists, c: Component)
    requires Inv(ev, c)
    ensures ListenersAsRecorded(ev, c) && (Clean(c) <==> CleanedUp(c))
  {
    forall e, id
      ensures c.registry.listeners[(e, Handler(id))] == Expected(c.registry, e, Handler(id))
      ensures c.registry.listeners[(e, HandleUpdate)] == Expected(c.registry, e, HandleUpdate)
    {
    }
    if c.window.handler.Some? {
      assert c.window.handler.value in c.window.listeners;
    }
    if e :| e in c.registry.updates {
      assert c.registry.listeners[(e, HandleUpdate)] == 1;
    }
  }

  /** In every reachable state the listeners are as recorded, and after unmounting none
      of the component's own is left unless `onPurge` threw. */
  lemma ListenerBooks(ev: EventLists, props: Props, moves: seq<Move>)
    requires ev.Complete()
    ensures var c := Run(ev, Initial(props), moves);
            && ListenersAsRecorded(ev, c)
            && (c.phase.Gone? && Unmount(true) !in moves ==> CleanedUp(c))
  {
    InitialInv(ev, props);
    RunKeepsInv(ev, Initial(props), moves);
    BooksKept(ev, Run(ev, Initial(props), moves));
    if Unmount(true) !in moves {
      GoneIsClean(ev, Initial(props), moves);
    }
  }

  lemma SilentStep(ev: EventLists, c: Component, m: Move)
    requires c.phase.Gone?
    ensures var c1 := Step(ev, c, m);
            c1.phase.Gone? && c1.registry == c.registry && c1.window == c.window
            && c1.screen.calls == c.screen.calls && c1.screen.drawn == c.screen.drawn
  {
  }

  lemma {:induction false} SilentRun(ev: EventLists, c: Component, moves: seq<Move>)
    requires c.phase.Gone?
    ensures var c1 := Run(ev, c, moves);
            c1.phase.Gone? && c1.registry == c.registry && c1.window == c.window
            && c1.screen.calls == c.screen.calls && c1.screen.drawn == c.screen.drawn
    decreases |moves|
  {
    if moves != [] {
      SilentStep(ev, c, moves[0]);
      SilentRun(ev, Step(ev, c, moves[0]), moves[1..]);
    }
  }

  /** Whatever was queued or in flight at unmounting, nothing is drawn and no listener is
      added or removed afterwards. The component's own listeners are gone for good if and
      only if `onPurge` did not throw or there were none. */
  lemma SilentAfterUnmount(ev: EventLists, props: Props, before: seq<Move>, purgeThrows: bool, later: seq<Move>)
    requires ev.Complete()
    requires Run(ev, Initial(props), before).phase.Mounted?
    ensures var b := Run(ev, Initial(props), before);
            var c := Step(ev, b, Unmount(purgeThrows));
            var c1 := Run(ev, c, later);
            && c1.screen.calls == c.screen.calls && c1.registry == c.registry && c1.window == c.window
            && c.registry.handlers == b.registry.handlers
            && (CleanedUp(c1) <==> !purgeThrows || CleanedUp(b))
  {
    var b := Run(ev, Initial(props), before);
    var c := Step(ev, b, Unmount(purgeThrows));
    InitialInv(ev, props);
    RunKeepsInv(ev, Initial(props), before);
    UnmountCleans(ev, b);
    DetachExact(b.registry, ev.updates);
    StepKeepsInv(ev, b, Unmount(purgeThrows));
    BooksKept(ev, c);
    SilentRun(ev, c, later);
  }

  /** A prop update that is noticed, or does not touch the event props. */
  predicate Tidy(c: Component, m: Move) {
    m.Update? ==> ShouldRedraw(c.props, m.next) || m.next.on == c.props.on
  }

  predicate TidyRun(ev: EventLists, c: Component, moves: seq<Move>)
    decreases |moves|
  {
    moves == [] || (Tidy(c, moves[0]) && TidyRun(ev, Step(ev, c, moves[0]), moves[1..]))
  }

  /** The registered handlers are current, or a task is on its way, or the last one failed. */
  predicate HandlersPending(c: Component) {
    && (c.phase.New? ==> c.chain.tasks == [] && !c.chain.synced)
    && (c.registry.handlers == c.props.on || c.chain.tasks != [] || !c.chain.synced || c.phase.Gone?)
  }

  lemma TidyStep(ev: EventLists, c: Component, m: Move)
    requires Inv(ev, c) && HandlersPending(c) && Tidy(c, m)
    ensures HandlersPending(Step(ev, c, m))
  {
    if Enabled(c, m) && m.Synchronise? {
      SyncKeepsInv(ev, c, m.outcome);
    }
  }

  lemma {:induction false} TidyRunPending(ev: EventLists, c: Component, moves: seq<Move>)
    requires Inv(ev, c) && HandlersPending(c) && TidyRun(ev, c, moves)
    ensures HandlersPending(Run(ev, c, moves))
    decreases |moves|
  {
    if moves != [] {
      TidyStep(ev, c, moves[0]);
      StepKeepsInv(ev, c, moves[0]);
      TidyRunPending(ev, Step(ev, c, moves[0]), moves[1..]);
    }
  }

  /** With tidy updates, a quiet mounted component whose last task ran through has
      exactly the event props registered. */
  lemma HandlersCurrent(ev: EventLists, props: Props, moves: seq<Move>)
    requires ev.Complete()
    requires TidyRun(ev, Initial(props), moves)
    ensures var c := Run(ev, Initial(props), moves);
            c.phase.Mounted? && c.chain.tasks == [] && c.chain.synced ==> c.registry.handlers == c.props.on
  {
    InitialInv(ev, props);
    TidyRunPending(ev, Initial(props), moves);
  }

  /** A whole task without mishaps. */
  function CleanTask(ev: EventLists, c: Component): Component {
    Step(ev, Step(ev, Step(ev, c, StartDraw), Settle(true)), Synchronise(AllDone))
  }

  lemma CleanTaskRuns(ev: EventLists, c: Component)
    requires Inv(ev, c) && c.phase.Mounted? && |c.chain.tasks| == 1 && c.chain.stage.Waiting? && !c.chain.poisoned
    ensures var c1 := CleanTask(ev, c);
            && c1.chain.tasks == [] && !c1.chain.poisoned && c1.phase.Mounted? && Inv(ev, c1)
            && c1.registry.handlers == c1.props.on == c.props.on
            && c1.screen == Screen(Some(c.props.figure), c.screen.calls + 1, false)
            && (c1.window.handler.Some? <==> c.props.useResizeHandler)
            && (c.chain.tasks[0] ==> c1.registry.updates == ev.UpdateSet())
  {
    var b := Step(ev, Step(ev, c, StartDraw), Settle(true));
    StepKeepsInv(ev, c, StartDraw);
    StepKeepsInv(ev, Step(ev, c, StartDraw), Settle(true));
    SyncKeepsInv(ev, b, AllDone);
    SyncRegistry(ev, b);
    AttachRegistry(ev, SyncAll(b.registry, b.props.on, ev.names), b.chain.tasks[0]);
  }

  /** An update of a quiet, current component reaches the registered handlers if and
      only if it is tidy: a new `on*` prop alone, with the same figure, goes unnoticed. */
  lemma HandlerUpdateExactness(ev: EventLists, c: Component, next: Props)
    requires Inv(ev, c) && c.phase.Mounted? && c.chain.tasks == [] && !c.chain.poisoned
    requires c.registry.handlers == c.props.on
    ensures var c1 := CleanTask(ev, Step(ev, c, Update(next)));
            c1.chain.tasks == [] && (c1.registry.handlers == c1.props.on <==> Tidy(c, Update(next)))
  {
    StepKeepsInv(ev, c, Update(next));
    if ShouldRedraw(c.props, next) {
      CleanTaskRuns(ev, Step(ev, c, Update(next)));
    }
  }

  /** What a clean task shows and registers is that of the present props; and an update of
      a quiet component draws again if and only if one of data, layout and configuration,
      the number of frames, or a revision defined before has changed. */
  lemma RedrawExactness(ev: EventLists, c: Component, next: Props)
    requires Inv(ev, c) && c.phase.Mounted? && c.chain.tasks == [] && !c.chain.poisoned
    ensures var c1 := CleanTask(ev, Step(ev, c, Update(next)));
            var old', new' := c.props, next;
            && c1.chain.tasks == [] && c1.props == next
            && (c1.screen.calls != c.screen.calls
                <==> || old'.figure.data != new'.figure.data || old'.figure.layout != new'.figure.layout
                     || old'.figure.config != new'.figure.config || old'.frames != new'.frames
                     || (old'.revision.Some? && old'.revision != new'.revision))
            && (c1.screen.calls != c.screen.calls ==>
                  c1.screen == Screen(Some(next.figure), c.screen.calls + 1, false))
  {
    StepKeepsInv(ev, c, Update(next));
    if ShouldRedraw(c.props, next) {
      CleanTaskRuns(ev, Step(ev, c, Update(next)));
    }
  }

  // ---------------------------------------------------------------- the resize listener

  /** A task of a mounted component that runs through leaves a resize listener exactly if
      `useResizeHandler` asks for one, and the same one if there was one before. */
  lemma ResizeFollows(ev: EventLists, c: Component, outcome: SyncOutcome)
    requires c.phase.Mounted? && Enabled(c, Synchronise(outcome))
    ensures var c1 := Step(ev, c, Synchronise(outcome));
            |c1.chain.tasks| < |c.chain.tasks| ==>
              && (c1.window.handler.Some? <==> c.props.useResizeHandler)
              && (c.window.handler.Some? && c.props.useResizeHandler ==> c1.window == c.window)
  {
  }

  /** A prop update that is noticed, or leaves `useResizeHandler` alone. */
  predicate TidyResize(c: Component, m: Move) {
    m.Update? ==> ShouldRedraw(c.props, m.next) || m.next.useResizeHandler == c.props.useResizeHandler
  }

  predicate TidyResizeRun(ev: EventLists, c: Component, moves: seq<Move>)
    decreases |moves|
  {
    moves == [] || (TidyResize(c, moves[0]) && TidyResizeRun(ev, Step(ev, c, moves[0]), moves[1..]))
  }

  predicate ResizePending(c: Component) {
    && (c.phase.New? ==> c.chain.tasks == [] && !c.chain.synced)
    && ((c.window.handler.Some? <==> c.props.useResizeHandler)
        || c.chain.tasks != [] || !c.chain.synced || c.phase.Gone?)
  }

  lemma ResizeStep(ev: EventLists, c: Component, m: Move)
    requires ResizePending(c) && TidyResize(c, m)
    ensures ResizePending(Step(ev, c, m))
  {
    if Enabled(c, m) && m.Synchronise? && c.phase.Mounted? {
      ResizeFollows(ev, c, m.outcome);
    }
  }

  lemma {:induction false} ResizeRunPending(ev: EventLists, c: Component, moves: seq<Move>)
    requires ResizePending(c) && TidyResizeRun(ev, c, moves)
    ensures ResizePending(Run(ev, c, moves))
    decreases |moves|
  {
    if moves != [] {
      ResizeStep(ev, c, moves[0]);
      ResizeRunPending(ev, Step(ev, c, moves[0]), moves[1..]);
    }
  }

  /** With tidy updates, a quiet mounted component whose last task ran through listens to
      the window's size exactly if its props ask for it. */
  lemma ResizeCurrent(ev: EventLists, props: Props, moves: seq<Move>)
    requires ev.Complete() && TidyResizeRun(ev, Initial(props), moves)
    ensures var c := Run(ev, Initial(props), moves);
            c.phase.Mounted? && c.chain.tasks == [] && c.chain.synced ==>
              |c.window.listeners| == if c.props.useResizeHandler then 1 else 0
  {
    ResizeRunPending(ev, Initial(props), moves);
    InitialInv(ev, props);
    RunKeepsInv(ev, Initial(props), moves);
  }

  /** An update of a quiet, current component reaches the resize listener if and only if
      it is tidy: a changed `useResizeHandler` alone goes unnoticed. */
  lemma ResizeUpdateExactness(ev: EventLists, c: Component, next: Props)
    requires Inv(ev, c) && c.phase.Mounted? && c.chain.tasks == [] && !c.chain.poisoned
    requires c.window.handler.Some? <==> c.props.useResizeHandler
    ensures var c1 := CleanTask(ev, Step(ev, c, Update(next)));
            (c1.window.handler.Some? <==> next.useResizeHandler) <==> TidyResize(c, Update(next))
  {
    StepKeepsInv(ev, c, Update(next));
    if ShouldRedraw(c.props, next) {
      CleanTaskRuns(ev, Step(ev, c, Update(next)));
    }
  }

  // ---------------------------------------------------------------- the mounting task, and mishaps

  /** Nothing that belongs to others throws in this move. */
  predicate Smooth(m: Move) {
    m != Settle(false) && (m.Synchronise? ==> m.outcome.AllDone?)
  }

  /** The update events are listened to, or the mounting task is still to do it. */
  ghost predicate Attaching(ev: EventLists, c: Component) {
    && !c.chain.poisoned && !c.chain.stage.Failing?
    && (c.phase.Mounted? ==>
          c.registry.updates == ev.UpdateSet() || (c.chain.tasks != [] && c.chain.tasks[0]))
  }

  lemma SmoothStep(ev: EventLists, c: Component, m: Move)
    requires Inv(ev, c) && Attaching(ev, c) && Smooth(m)
    ensures Attaching(ev, Step(ev, c, m))
  {
    if Enabled(c, m) && m.Synchronise? && c.phase.Mounted? {
      SyncRegistry(ev, c);
      AttachRegistry(ev, SyncAll(c.registry, c.props.on, ev.names), c.chain.tasks[0]);
    }
  }

  lemma {:induction false} SmoothRun(ev: EventLists, c: Component, moves: seq<Move>)
    requires Inv(ev, c) && Attaching(ev, c) && forall m <- moves :: Smooth(m)
    ensures Attaching(ev, Run(ev, c, moves))
    decreases |moves|
  {
    if moves != [] {
      assert moves[0] in moves;
      SmoothStep(ev, c, moves[0]);
      StepKeepsInv(ev, c, moves[0]);
      SmoothRun(ev, Step(ev, c, moves[0]), moves[1..]);
    }
  }

  /** As long as nothing throws, a quiet mounted component has `handleUpdate` registered
      once for every update event, whatever updates came before the first drawing. */
  lemma UpdatesAttached(ev: EventLists, props: Props, moves: seq<Move>, e: Event)
    requires ev.Complete() && forall m <- moves :: Smooth(m)
    ensures var c := Run(ev, Initial(props), moves);
            c.phase.Mounted? && c.chain.tasks == [] ==>
              c.registry.listeners[(e, HandleUpdate)] == if e in ev.updates then 1 else 0
  {
    InitialInv(ev, props);
    SmoothRun(ev, Initial(props), moves);
    RunKeepsInv(ev, Initial(props), moves);
    var c := Run(ev, Initial(props), moves);
    assert c.registry.listeners[(e, HandleUpdate)] == Expected(c.registry, e, HandleUpdate);
  }

  /** A failed task spoils the next one if and only if its `onError` is there and throws:
      then nothing is drawn, and otherwise the present figure is. */
  lemma FailureExactness(ev: EventLists, c: Component, first: bool, throws: bool)
    requires Inv(ev, c) && c.phase.Mounted? && c.chain.stage.Failing?
    requires c.chain.tasks == [first, false]
    ensures var c1 := CleanTask(ev, Step(ev, c, Catch(throws)));
            if throws && c.props.hasOnError
            then c1.screen == c.screen.(failed := true) && c1.registry == c.registry && c1.chain.stage.Failing?
            else c1.screen == Screen(Some(c.props.figure), c.screen.calls + 1, false) && c1.chain.tasks == []
  {
    StepKeepsInv(ev, c, Catch(throws));
    assert [first, false][1..] == [false];
    if !(throws && c.props.hasOnError) {
      CleanTaskRuns(ev, Step(ev, c, Catch(throws)));
    }
  }

  /** What a throw in the second step leaves undone: the callback's, the update events; the
      resize handler's, which is invoked only when the mounting task has just put it up,
      every event. */
  lemma ThrowExactness(ev: EventLists, c: Component)
    requires Inv(ev, c) && c.phase.Mounted? && Enabled(c, Synchronise(AllDone))
    ensures var c1 := Step(ev, c, Synchronise(CallbackThrows));
            && c1.chain == c.chain.(stage := Failing)
            && c1.registry.handlers == c.props.on && c1.registry.updates == c.registry.updates
            && (c1.window.handler.Some? <==> c.props.useResizeHandler)
    ensures var c1 := Step(ev, c, Synchronise(ResizeThrows));
            if c.chain.tasks[0] && c.window.handler.None? && c.props.useResizeHandler
            then c1.chain == c.chain.(stage := Failing) && c1.registry == c.registry && c1.window.handler.Some?
            else c1 == Step(ev, c, Synchronise(AllDone))
  {
    SyncRegistry(ev, c);
  }
}
