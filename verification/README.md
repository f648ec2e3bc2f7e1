# A verified model of the TGVE data engine

TGVE (`tgvejs`) is a React map front end. Under its user interface sit a small
in-memory query engine, a selection object that several components edit in
place, counters that draw the charts, and a queue of drawing tasks around
Plotly. This project models those parts in Dafny 4.11 and proves what they keep,
over every input and every run. `dafny verify dfyconfig.toml` checks all of it.

| file | contents |
|---|---|
| `JsValues.dfy` | property values, truthiness, `v + ""` and `+v` |
| `Features.dfy` | features, the selection, the row filter |
| `Join.dfy` | joining rows to a separate geography |
| `Pipeline.dfy` | `generateLayer` on the data and state of `Home`, and its row cache |
| `World.dfy` | Home, the panels and the charts as one transition system |
| `Effects.dfy` | what single actions do to selection and rows |
| `Home.dfy` | the same as classes that share one selection object |
| `Counts.dfy` | the frequency counters |
| `BrushLink.dfy` | bars against the rows a click on them selects |
| `Contingency.dfy` | two-way counts and the year series |
| `PlotlyEvents.dfy`, `Plotly.dfy`, `PlotlyComponent.dfy` | listeners, task queue and lifecycle of the Plotly wrapper, and its class |
| `Text.dfy`, `SelectCodec.dfy` | `split`/`join` and the `select` parameter |
| `EnvNames.dfy` | `REACT_APP_*` names |
| `Decimals.dfy`, `ColourDomain.dfy` | `toFixed`, value domains, colours and radii |
| `Viewport.dfy` | the viewport in the address bar |

How a number prints and how a text reads as a number are properties of the
JavaScript runtime, so they are parameters (`JsValues.Runtime`). No law about them is
taken for granted, except that the viewport theorems require of the numbers they print
that each reads back as itself (`Viewport.Printer.Faithful`), which for any numbers some
printer meets (`Viewport.FaithfulPrinter`). The order in which an object lists its keys,
containment in the map bounds, the year of a date, the result of JSON.parse, and which
foreign call of a drawing task throws are parameters as well. Numbers are exact reals.

`World.World` holds the two selection objects that matter: the one in Home's state and
the one Charts captured when it was constructed; `linked` says that they are one
object. The class methods in `Home.dfy` are proved to take exactly the steps of
that transition system on real, shared objects (`Home.Act`, `Home.Play`), so the
theorems over runs hold of the objects. `PlotlyComponent.Play` does the same for the
Plotly wrapper.

## What the proofs show about the code

Most promises hold as stated. These hold only under a condition, which is proved
to be exact or comes with the result in the other case:

- A column change reads the row cache, and that is safe for every run of steady actions
  (`World.CacheCoherence`). It stops being safe when the `data` prop is replaced
  by data with no matching row: the cache of the old data then answers
  (`Pipeline.ReloadCoherence`). After a pin has been let go it is safe again, whatever
  was clicked in between (`World.UnpinCoherence`). The rows of the map bounds stick to
  the cache in the same way until the next pass over all data (`World.BoundsStick`,
  `World.FullPassCoherence`).
- A result fed back through the join is stable if its first row has a truthy key and
  no place was cut away from another place with its key; otherwise places come back,
  or the whole bare geography (`Join.RejoinExactness`). So a pinned map only narrows
  as long as places that share a key look alike, and no weaker condition on the
  geography does for every cut (`Join.EveryCutStable`, `World.PinThenNarrows`).
- After a reset, Charts still edits the selection object from before it; the first
  bars clicked bring its columns back, or take one off it (`World.StaleAfterReset`).
- If the selection Home starts with leaves no row, choosing a column fails with a
  TypeError (`Effects.EarlyChoiceCrashes`); once rows have been shown nothing fails
  (`Effects.NeverCrashes`).
- The severity toggle stores raw values while rows are compared as text, so it
  finds nothing for a numeric severity (`BrushLink.SeverityClick`).
- Clicking bars selects the counted rows exactly when numeric texts are written the
  way JavaScript prints them and no two values print alike
  (`BrushLink.BrushExactness`).
- A changed `on*` prop with an unchanged figure never reaches the plot
  (`Plotly.HandlerUpdateExactness`).
- A changed `useResizeHandler` alone does not reach the window either
  (`Plotly.ResizeUpdateExactness`), and a throwing `onError` spoils the next drawing
  (`Plotly.FailureExactness`).
- If `onPurge` throws at unmounting, the resize listener and the update listeners
  survive (`Plotly.SilentAfterUnmount`).
- The colour of a number in the travel-time column is found only if it happens to be
  the five-minute bucket of some row, which the largest never is
  (`ColourDomain.TravelTimeExactness`); under a column name that reads as a number it
  is looked up among the values of another column (`ColourDomain.NumericNameExactness`).
- Radii lie in [1, 300] for the values of the column they are made from
  (`ColourDomain.RadiusBoundedMonotone`). In the travel-time column they are made from
  seconds but scaled by buckets, so the longest time is always too large
  (`ColourDomain.TravelTimeTooLarge`).
- Names such as `defaultURL`, which end in two capitals, cannot be read back from
  their environment name (`EnvNames.EnvNameRoundTrip`).
- Pitch and bearing of the URL are stored under `pit` and `bea` and so never reach the
  view, although the README names them as members of the viewport
  (`Viewport.ViewportRoundTrip`); the zoom is lost when printed first. Setting texts are
  printed as they are, so one that holds `&lat=`, say, makes the position unreadable
  (`Viewport.NumberReadBack`).

## Model

| member | source | states |
|---|---|---|
| `Features.PassesSelection` | src/home/util.js:230-243 | the early-return loop accepts a row exactly when every selected column's set holds the row's value as text |
| `Features.FilterGeojson` | src/home/util.js:212-261 | the filter with selection, pinned point and bounds keeps exactly `Keep` of the rows |
| `Features.KeepMembers` | src/home/util.js:228-260 | a row is kept if and only if it was there and meets every test |
| `Features.KeepIsSubsequence` | src/home/util.js:228-260 | filtering preserves order and adds nothing |
| `Features.KeepCommutes` | src/home/util.js:228-260 | two filtering passes can be swapped |
| `Join.SetGeojsonProps` | src/utils/geojsonutils.js:328-349 | with the two column names given, the nested loop with its early exits and its break computes the first-match join, or hands back the bare geography |
| `Join.JoinMembers` | src/utils/geojsonutils.js:335-348 | a joined feature has the shape of a place and the properties of the first row with its key, and every such feature is there |
| `Join.JoinInOrder` | src/utils/geojsonutils.js:335-348 | the joined features are those places that have a match, each once and in order, with the properties of the first row that has the key |
| `Join.LocateExact` | src/utils/geojsonutils.js:299-331 | the bare geography is used exactly if a list is missing or empty or a first key is falsy |
| `Join.SelectionPushdown` | src/utils/geojsonutils.js:335-348 | filtering after the join is an ordered part of joining filtered rows, and equal to it if and only if no place has a rejected first match in front of an accepted one |
| `Join.PushdownWithUniqueKeys` | src/home/util.js:100-116 | with unique data keys filter and join commute, guards included |
| `Join.RejoinStability` | src/home/util.js:92-116 | an earlier property-filtered result joined again is itself if its first key is truthy, and otherwise the bare geography |
| `Join.RejoinExactness` | src/utils/geojsonutils.js:335-348 | a result cut by any test only grows when joined again, and comes back as it was if and only if no place was cut away while another with its key was kept |
| `Join.EveryCutStable` | src/utils/geojsonutils.js:335-348 | every possible cut can be joined again without change if and only if places sharing the key of a row have shapes no test tells apart, for which unique keys suffice |
| `Pipeline.ComputeLayer` | src/home/util.js:92-124 | the step-by-step reassignment of the data computes the outcome of `GenerateLayer` and the rows, selection, pin, column and colour it leaves |
| `Pipeline.ColumnAnswersFresh` | src/home/util.js:91-124 | on a coherent cache the column action answers exactly as a query over all data |
| `Pipeline.FreshPassRestores` | src/home/util.js:100-124 | any successful pass over all data makes the cache the from-scratch answer, whatever it held |
| `Pipeline.ReloadCoherence` | src/home/index.js:94-148 | after a change of the data prop the column action answers for the new data exactly when that has a matching row or the old data had none |
| `Pipeline.PinnedPassNarrows` | src/home/util.js:92-124 | with a pinned line a successful pass shows a nonempty ordered part of the rows before, all passing the selection, and with a geography whose places look alike where they share a key the next pass does so again |
| `Pipeline.PinnedRedrawExact` | src/home/util.js:92-116 | with a separate geography a pinned redraw keeps the rows exactly if no place was severed, and otherwise shows more |
| `World.CacheCoherence` | src/home/util.js:88-124 | through every run of selection edits and column, colour and layer actions, with or without a separate geography, the cache answers as a query from scratch |
| `World.SharedSelection` | src/components/decksidebar/Charts.jsx:14-62 | until a reset Charts and the panels edit the one object Home reads, and no column is ever mapped to an empty set |
| `Effects.NeverCrashes` | src/home/util.js:92-118 | after rows have been shown no request fails, whatever is done |
| `Effects.EarlyChoiceCrashes` | src/home/util.js:92-118 | before any rows were shown, choosing a column fails exactly if no row passes the initial selection |
| `Effects.ReloadShows` | src/home/index.js:94-139 | a changed data prop with features replaces the data and shows what of it passes the selection |
| `Effects.RemountCures` | src/components/decksidebar/Charts.jsx:14-19 | if Charts is mounted again after a reset, the first bars clicked are the only filter |
| `Effects.ResetShows` | src/home/index.js:483-541 | a reset shows all new rows and leaves no pin, column or selection, but the colour and the object Charts holds |
| `Effects.SeverityLast` | src/components/decksidebar/Charts.jsx:83-96 | toggling off the last column shows every row |
| `Effects.SeverityTwice` | src/components/decksidebar/Charts.jsx:83-96 | two clicks on one severity restore selection and rows, also after a click that found nothing |
| `Effects.SeverityDeselects` | src/components/decksidebar/Charts.jsx:86-95 | a click on the selected severity removes the column and shows the rows passing the others |
| `Effects.SeveritySelects` | src/components/decksidebar/Charts.jsx:83-96 | a click on a severity that is not selected selects it alone and shows the rows that print as it and pass the other columns, or the earlier ones if there are none |
| `World.ClearingLastColumn` | src/components/decksidebar/Tabs.jsx:168-175 | removing the last column by any of the three components shows every source feature |
| `World.PickShowsExactly` | src/components/MultiSelect.jsx:17-25 | after an edit of a column's values the rows shown are exactly those passing the other columns and holding a picked value, in order, if there are any, and otherwise those from before |
| `World.SecondClickUndoes` | src/components/decksidebar/Charts.jsx:38-62 | a second click on a bar of the column restores selection and rows, also after a click that found nothing |
| `World.StaleAfterReset` | src/home/index.js:483-513 | after a reset and any requests that touch no selection, the first bar click filters by exactly the clicked bars if and only if the object Charts kept was empty and some row has one of the values; in every other case the selection is the stale one or empty, as stated |
| `World.NoColumnAfterReset` | src/home/index.js:483-513 | after a reset no column is in force until one is chosen |
| `World.ChoiceStored` | src/home/util.js:126-186 | a chosen column or colour is stored, and the rows passing the selection shown, if and only if there are any |
| `World.DropEachIsOnePass` | src/components/Variables.jsx:69-83 | removing columns one by one with a pass after each ends where one removal and one pass end |
| `World.PinnedRunNarrows` | src/home/util.js:92-124 | while a line stays pinned no run of actions shows more rows than before, or none; with a geography, keys must be usable and places sharing one look alike |
| `World.PinThenNarrows` | src/home/util.js:92-124 | a line with some row on it, pinned after any steady run from a coherent state, is stored and from then on only narrows the rows it showed |
| `World.UnpinCoherence` | src/home/index.js:397-403 | whatever was done while a line was pinned, after letting go of it the cache again answers as a query from scratch through every steady run |
| `World.FullPassCoherence` | src/home/util.js:92-124 | whatever was done, map bounds included, once no line is pinned one pass over all data makes the cache answer as a query from scratch through every steady run |
| `World.BoundsStick` | src/home/util.js:92-124 | a column change after the map bounds were applied shows the bounded rows, which are the from-scratch answer if and only if the bounds left nothing out |
| `World.PinShowsExactly` | src/home/util.js:244-250 | pinning a line stores the point and shows exactly the rows on it that pass the selection, or does nothing if there are none |
| `Home.Home.CallGenerateLayer` | src/home/index.js:254-267 | Home's state becomes the state of the pass, and a successful `multi` request makes Home hold the very object it carried |
| `Home.Home.UrlCallback` | src/home/index.js:483-541 | a reset clears cache, pin and column and installs a fresh selection object |
| `Home.Home.InitDataState` | src/home/index.js:129-139 | new data is stored and a pass made while the cache is left as it was; data without features is ignored |
| `Home.Home.ClickMap` | src/home/index.js:397-403 | a click on the empty map lets go of the pin and makes a full pass |
| `Home.Home.TabsForward` | src/components/decksidebar/Tabs.jsx:170-175 | an emptied selection is forwarded as a plain request, another one as `multi` with the same object |
| `Home.Charts.FilterOrReset` | src/components/decksidebar/Charts.jsx:38-62 | the in-place edit and its callback take exactly the step of the transition system, shared object or not |
| `Home.Charts.ToggleSeverity` | src/components/decksidebar/Charts.jsx:83-96 | the same for the severity toggle |
| `Home.ChangeValues` | src/components/MultiSelect.jsx:8-25 | the same for the values box below Variables |
| `Home.ChangeColumns` | src/components/Variables.jsx:69-83 | the loop deletes every column not chosen and calls back after each |
| `Home.Play` | src/home/index.js:407-450 | any sequence of actions on the objects follows the transition system, keeps Charts and Home on one object without a reset, and keeps a coherent cache coherent |
| `Counts.GetPropertyValues` | src/utils/geojsonutils.js:78-100 | for a property, its distinct values in order of first occurrence |
| `Counts.GetAllPropertyValues` | src/utils/geojsonutils.js:78-100 | without a property, the distinct values of every column that some feature has |
| `Counts.GetKeyColumns` | src/utils/geojsonutils.js:26-39 | the key columns are exactly those every feature has and no two features share a value of, and nothing if there are none |
| `Counts.KeyColumnMeaning` | src/utils/geojsonutils.js:26-39 | a column counts as key if and only if every feature has it and no two share a value |
| `Counts.KeyColumnPushdown` | src/utils/geojsonutils.js:18-39 | joining on a key column, the selection applies to data or joined result alike |
| `Counts.PropertyCount` | src/utils/geojsonutils.js:114-140 | without a list of values, counting by index into the distinct values gives the tally of the column, without holes, and nothing without a column |
| `Counts.TallyMeaning` | src/utils/geojsonutils.js:114-140 | propertyCount has a bar at a value of some height if and only if that many rows, and at least one, hold it |
| `Counts.TallyTotal` | src/utils/geojsonutils.js:123-138 | the heights of a tally add up to the number of values |
| `Counts.XyObjectByProperty` | src/utils/utils.js:99-131 | the Map loop and the sort give the sorted bars of the plotted keys, with nulls left out or not, or nothing if there are none or no column |
| `Counts.ChartMeaning` | src/utils/utils.js:99-131 | there is a bar at a value of some height if and only if that many rows, and at least one, hold the value or a text that reads as it |
| `Counts.ChartInOrder` | src/utils/utils.js:118-121 | on a column of one kind the bars stand in the order of the numbers or of the texts |
| `Counts.AscendingIsUnique` | src/utils/utils.js:118-121 | there is one ascending arrangement, so any sorting routine gives the same chart |
| `Counts.CountersAgree` | src/utils/utils.js:87-99 | both counters give the same bars if and only if the column holds no null and no numeric text |
| `Counts.ChartIsSortedCount` | src/utils/utils.js:99-131 | on such a column of one kind the chart is propertyCount's result in strictly ascending order, and both add up to the rows that have the column |
| `BrushLink.BrushExactness` | src/components/decksidebar/Charts.jsx:54-60 | every click on bars selects exactly the rows they counted if and only if the column is canonical |
| `BrushLink.BarHeight` | src/components/decksidebar/Charts.jsx:106-116 | the heights that are summed are those of bars the chart draws |
| `BrushLink.ChartBarMeaning` | src/components/decksidebar/Charts.jsx:106-116 | the bars Charts draws, told from the rows with a truthy value |
| `BrushLink.HeightsCount` | src/utils/utils.js:99-131 | the rows several bars counted are as many as their heights together |
| `BrushLink.BrushAndLink` | src/components/decksidebar/Charts.jsx:38-62 | from a coherent cache a click shows exactly the counted rows, as many as the heights add up to, never none |
| `BrushLink.SeverityExactness` | src/components/decksidebar/Charts.jsx:83-96 | the severity toggle selects the rows counted if and only if the value is a text and no other value prints as it |
| `BrushLink.SeverityClick` | src/components/decksidebar/Charts.jsx:83-96 | on a coherent map the toggle shows the rows printing as a text severity, which are the counted ones if and only if no other value prints so, and finds nothing for any other value |
| `Contingency.PropertyCountByProperty` | src/utils/geojsonutils.js:158-182 | the loop builds the table, and asking for a column against itself gives nothing |
| `Contingency.CellExact` | src/utils/geojsonutils.js:167-179 | a cell is the exact number of matching rows and is absent exactly when there are none |
| `Contingency.CellMeaning` | src/utils/geojsonutils.js:158-182 | a cell counts the rows that have the column, print its value there, and have its year, or no year and its text |
| `Contingency.YearGroup` | src/utils/geojsonutils.js:164-166 | the group of a year holds all its rows, and only those if and only if nothing else prints alike |
| `Contingency.ColumnSum` | src/utils/geojsonutils.js:161-181 | the counts of a value over all groups are the rows holding it |
| `Contingency.RowSum` | src/utils/geojsonutils.js:161-181 | the counts of a group are its rows that have the column |
| `Contingency.GrandTotal` | src/utils/geojsonutils.js:158-182 | all cells together count each row that has the column once |
| `Contingency.TableAgreesWithCount` | src/utils/geojsonutils.js:114-182 | summing a value over the groups gives propertyCount's bar if and only if no other value prints the same |
| `Contingency.ArrayOfYearAndProperty` | src/components/showcases/plots.jsx:189-211 | three series over the same named groups that have both counts, the third the pointwise sum of the others |
| `Contingency.YearsShown` | src/components/showcases/plots.jsx:192-194 | a group is plotted if and only if it has a name, a male and a female row |
| `Contingency.SeriesMeaning` | src/components/showcases/plots.jsx:195-209 | the three series plot the numbers of male rows, of female rows and of both |
| `Contingency.YearTotals` | src/components/showcases/plots.jsx:205-209 | the third series totals the male and female rows of the years shown |
| `Contingency.SortKeepsPairs` | src/components/showcases/plots.jsx:34-40 | sorting the x values alone keeps every pair, as year keys enumerate in ascending order |
| `Contingency.SortByDateSorts` | src/components/showcases/plots.jsx:34-40 | the sort of the x values reorders any four-digit years by date |
| `Contingency.YearOrder` | src/components/showcases/plots.jsx:38-40 | four-digit years are in the order of their texts |
| `PlotlyEvents.SyncExact` | src/components/showcases/factory.js:215-232 | going through all event names leaves exactly the current props registered, whatever was there |
| `PlotlyEvents.AttachExact` | src/components/showcases/factory.js:156-164 | attaching adds `handleUpdate` once per update event and touches nothing else |
| `PlotlyEvents.DetachExact` | src/components/showcases/factory.js:166-174 | detaching removes it from every update event and touches nothing else |
| `PlotlyComponents.PlotlyComponent.Play` | src/components/showcases/factory.js:75-154 | any sequence of callbacks and queue steps on the object follows the transition system, keeps the listeners as recorded, shows the current figure when quiet, and leaves no own listener after unmounting unless `onPurge` threw |
| `Plotly.Quiescence` | src/components/showcases/factory.js:75-139 | in every run, a quiet mounted component whose last drawing did not fail shows its current figure |
| `Plotly.ListenerBooks` | src/components/showcases/factory.js:156-242 | in every reachable state each recorded handler is registered once, `handleUpdate` at most once per update event, a resize listener exactly while its handler is held, and none of the component's own after unmounting unless `onPurge` threw |
| `Plotly.SilentAfterUnmount` | src/components/showcases/factory.js:141-154 | whatever is queued or in flight at unmounting, nothing is drawn and no listener changes afterwards; the component's own listeners are gone if and only if `onPurge` did not throw or there were none |
| `Plotly.HandlersCurrent` | src/components/showcases/factory.js:116-139 | with tidy updates a quiet component has exactly the current event props registered |
| `Plotly.HandlerUpdateExactness` | src/components/showcases/factory.js:116-139 | an update reaches the registered handlers if and only if it triggers a redraw or leaves the event props alone |
| `Plotly.RedrawExactness` | src/components/showcases/factory.js:116-139 | an update draws again if and only if data, layout, configuration, the number of frames, or a revision defined before has changed, and then draws the new figure |
| `Plotly.ResizeFollows` | src/components/showcases/factory.js:189-204 | a task that runs through leaves a resize listener exactly if `useResizeHandler` asks for one, the same one if there was one |
| `Plotly.ResizeCurrent` | src/components/showcases/factory.js:116-139 | with tidy updates a quiet component has one resize listener or none as its props ask |
| `Plotly.ResizeUpdateExactness` | src/components/showcases/factory.js:116-139 | an update reaches the resize listener if and only if it triggers a redraw or leaves `useResizeHandler` alone |
| `Plotly.UpdatesAttached` | src/components/showcases/factory.js:110-164 | as long as nothing throws, a quiet component has `handleUpdate` registered once per update event |
| `Plotly.FailureExactness` | src/components/showcases/factory.js:75-107 | a failed task spoils the next one if and only if its `onError` throws |
| `Plotly.ThrowExactness` | src/components/showcases/factory.js:92-102 | what a throw of the figure callback or of the resize handler leaves undone |
| `PlotlyComponents.PlotlyComponent.ComponentDidUpdate` | src/components/showcases/factory.js:116-139 | a prop update enqueues a task exactly when figure, frame count or a defined revision changed |
| `PlotlyComponents.PlotlyComponent.ComponentWillUnmount` | src/components/showcases/factory.js:141-154 | unmounting drops the resize listener and the update events, unless `onPurge` throws first |
| `PlotlyComponents.PlotlyComponent.SyncEventHandlers` | src/components/showcases/factory.js:215-242 | the loop over the event names registers, removes and replaces as the specification does |
| `PlotlyComponents.PlotlyComponent.SyncWindowResize` | src/components/showcases/factory.js:189-204 | the resize listener follows `useResizeHandler` |
| `PlotlyComponents.PlotlyComponent.AfterDraw` | src/components/showcases/factory.js:92-102 | the second callback synchronises, and whatever throws keeps the rest from happening |
| `Text.SplitJoin` | src/utils/api.js:145-149 | splitting undoes joining as long as no part holds the separator |
| `SelectCodec.KeySetObject` | src/utils/api.js:128-157 | JSON objects and checked text are read as specified, anything else is refused |
| `SelectCodec.LaterWins` | src/utils/api.js:146-153 | a later value text for a key replaces an earlier one unless it is empty |
| `SelectCodec.JsonFromKeySetObject` | src/utils/api.js:160-166 | every column's set becomes an array of exactly its members, and reading the object back gives the selection |
| `SelectCodec.SelectRoundTrip` | src/utils/api.js:140-155 | reading the printed text gives the selection back if and only if its head passes the format check and every column has a value text |
| `SelectCodec.FormatsAgree` | src/utils/api.js:128-166 | text and JSON of one selection are read as the same |
| `EnvNames.ApiToReactApp` | src/utils/api.js:182-197 | the do-while loop terminates and gives the prefixed words of the name |
| `EnvNames.EnvNameExact` | src/utils/api.js:168-197 | the environment name letter by letter, with underscores exactly before the capitals that do not go on the run of capitals the name ends in |
| `EnvNames.EnvNameLetters` | src/utils/api.js:168-197 | deleting the underscores after the prefix leaves exactly the upper-case name |
| `EnvNames.EnvNameRoundTrip` | src/utils/api.js:168-197 | a name of letters is read back by snake-to-camel if and only if it starts in lower case and does not end in two capitals |
| `EnvNames.EnvNameInjective` | src/utils/api.js:168-197 | no two such names share an environment name |
| `ColourDomain.GenerateDomain` | src/utils/utils.js:472-501 | the loop collects the distinct entries of the truthy values read by name or by position, sorted if all are numeric, or nothing without rows or column |
| `ColourDomain.ReadMeaning` | src/utils/utils.js:478-481 | the value read is that of the column, or, under a name that reads as a nonzero number, that of the key at the position printing as the name, or none |
| `ColourDomain.LookupNeverMisses` | src/utils/color.js:36-54 | in a column of its own name other than the travel-time one each truthy value is found, at a fraction in [0, 1), values that differ or read as different numbers apart, and larger numbers later |
| `ColourDomain.TravelTimeExactness` | src/utils/utils.js:483-485 | in the travel-time column a number is found if and only if it is the five-minute bucket of some row, and a truthy value that is no number always |
| `ColourDomain.TravelTimeMisses` | src/utils/utils.js:483-485 | so the largest positive travel time is never found |
| `ColourDomain.NumericNameExactness` | src/utils/utils.js:478-481 | under a name that reads as a nonzero number a value is found if and only if its entry stands at that position of some row; otherwise the domain is that of the column |
| `ColourDomain.RadiusExactness` | src/home/util.js:33-43 | for any number and any two distinct extremes, the exact range of numbers whose rounded radius lies in [1, 300] |
| `ColourDomain.RadiusMonotone` | src/home/util.js:33-43 | a larger number never gets a smaller radius, in or out of range |
| `ColourDomain.RadiusNear` | src/home/util.js:33-43 | radii keep the numbers as they are or spread them evenly from 1 to 10, up to rounding, and the extremes get exactly those |
| `ColourDomain.FalsyRadius` | src/utils/utils.js:213-218 | which of the features whose value is falsy, and so contributes nothing, have a radius in range |
| `ColourDomain.RadiusBoundedMonotone` | src/home/util.js:33-43 | in a column of its own name other than the travel-time one a contributing value's radius lies in [1, 300] after rounding and never decreases with the value, and the divisor is positive |
| `ColourDomain.TravelTimeTooLarge` | src/home/util.js:33-43 | in the travel-time column, with positive times in two buckets or more, the longest time always gets a radius above 300 |
| `ColourDomain.TravelTimeRadii` | src/home/util.js:33-43 | times of 400 and 700 seconds get the domain [1, 2] and the radii 400 and 700 |
| `Decimals.FixedNear` | src/utils/utils.js:213-226 | rounding moves a number by at most half a unit of the last decimal |
| `Decimals.FixedTwice` | src/utils/utils.js:225-229 | rounding again changes nothing |
| `Viewport.UpdateHistory` | src/utils/utils.js:601-621 | the loop writes the members of the viewport and the text settings in order, each with a `&`, and takes the last one off |
| `Viewport.ViewDefaults.InitViewState` | src/home/util.js:263-284 | the view is computed in, and left in, the shared defaults object |
| `Viewport.NumberReadBack` | src/utils/utils.js:220-235 | the number read for a printed member is the printed one unless a setting text brings in a second of its name, or, where the question mark is left on, it was printed first |
| `Viewport.SettingReadBack` | src/utils/utils.js:616-618 | a text setting is printed under its name and read back up to its first `&` unless another clashes |
| `Viewport.ShownOnly` | src/utils/utils.js:606-619 | nothing but the six members and the three text settings is printed |
| `Viewport.FaithfulPrinter` | src/utils/utils.js:601-621 | whatever numbers are printed, some way of printing lets each read back as itself without a `&` |
| `Viewport.NoClash` | src/utils/utils.js:601-621 | settings without a `&` bring in nothing |
| `Viewport.ViewReadBack` | src/utils/utils.js:220-235 | what is read back of the text of a viewport: position to three decimals, the others, altitude included, unless printed first, defaults for a zero and for whatever a setting clashes with |
| `Viewport.ViewportRoundTrip` | src/home/util.js:263-284 | whatever earlier calls left in the defaults, position within 0.0005 and zoom within 0.005 unless lost or clashing with a setting; pitch and bearing are the printed ones if and only if they were there before |
| `Viewport.SecondPassStable` | src/utils/utils.js:601-621 | a second trip through the address bar leaves a coordinate alone if and only if a setting clashes with it both times or neither time, and the zoom exactly under the condition given |

## Left out

- ComputeLayer: layer name, legend, layer options, the alert text and the `%` filter, which no component sends, are not part of the state.
- SetGeojsonProps: the column names of a geography are given explicitly; guessing them from the first features is not modelled, and a geography always has its feature list.
- Meets: every feature has a geometry; the TypeError of a pinned line on rows without one is not modelled.
- CacheCoherence: with a separate geography the key column must be truthy in all rows; Join.RejoinStability and Join.RejoinExactness say what happens otherwise.
- XyObjectByProperty: the order of a column mixing numbers and texts is that of one insertion sort, whereas engines differ.
- PropertyCount: the optional list of values is not modelled; no caller passes one.
- PropertyCountByProperty: values named like members of Object.prototype are not treated specially.
- ArrayOfYearAndProperty: the table and the enumeration of its keys are inputs, so the sampled choice of the date column is left out, and empty series stand for `null`.
- InitDataState: without features the source falls back to fetching its default URL, which is not modelled.
- UpdateHistory: latitude, longitude and zoom are numbers; where the source would throw on another value is not modelled, nor is percent encoding.
- ViewReadBack: parameter names with square brackets, which `qs` reads as members of an object, and its limit of 1000 parameters.
- ListenerBooks: after unmounting it counts what the component registered and did not take back; that `Plotly.purge` then drops every listener of the plot is not in the state.
- React: batching of state updates, memoised re-rendering of the tabs and lazy mounting; each callback is one atomic step that sees the current state.
- Numbers: NaN, infinities and floating point rounding.
- Plotly itself, deck.gl, map tiles, file and network input, screenshots, tables and tooltips.
- The colour palettes and interpolators: only the place a value has in the domain is modelled.
- `hasAPIChanged`, `suggestDeckLayer` and other comparisons by random sampling.
