# icestudio graph service, modelled in Dafny

This project models the core of icestudio's graph service
(`app/scripts/services/graph.js`), the part of the FPGA design editor that
owns the JointJS graph of blocks and wires:

- **Connection legality** (`validateConnection`): whether a wire being drawn may
  end at a target port, and which warning the user sees when it may not.
- **The warning gate** (`warning`): one warning every 4 s at most; the others
  are dropped.
- **Port-default propagation**: the `add change:source change:target` and
  `remove` graph handlers and `updatePortDefault`. Each input port's
  `default.apply` flag should say "no wire feeds this port". The model proves
  this stays true for these changes: adding a wire into a free port, dragging
  a wire's target off its port, dropping a detached wire on a free port,
  removing an attached wire, removing a selection, and pasting a design
  whose blocks' flags match its own wires into a graph whose flags are
  accurate.
- **Keyboard nudging** (`stepLeft/Up/Right/Down`, `performStep`, `step`): the
  selection moves by 8 units. Presses are throttled to one per 200 ms. Presses
  less than 500 ms apart are grouped into one undo batch.
- **The selection operations**: `selectAll`, `removeSelected`, `copySelected`,
  `cutSelected`, and the shift-click that drops a block from the selection.
- **Building cells from a design** (`graphToCells`) with the options `new`,
  `reset`, `disabled` and `offset`. Blocks come first, then wires. Each wire end
  resolves to a block cell through `blocksMap`.
- **The design origin** (`graphOrigin`).
- **Pasting a design** (`appendDesign`): the first-writer-wins merge of its
  dependencies into the registry, the cells added to the graph, and the pasted
  blocks selected.

The files are:

- `cells.dfy`: the values (points, ports, blocks, wires, warnings).
- `connection.dfy`: connection legality as a pure function.
- `notify.dfy`: the warning gate, as an event system and as a class.
- `port_defaults.dfy`: the handlers as functions on the graph's maps, with the
  invariant they keep.
- `canvas.dfy`: the service's mutable graph and selection, as a class. Each
  method is proved against the functions of `port_defaults.dfy` and of its own
  module.
- `nudge.dfy`: the nudge timers and the undo-batch history.
- `loading.dfy`: `graphToCells`, `graphOrigin` and the dependency registry.
- `append.dfy`: `appendDesign` and `addCells`.

Timers (`setTimeout`) are explicit events, and the current time is a parameter.
A timer fires before any event that arrives after it is due.

## Model

| member | source | states |
|---|---|---|
| Cells.SizeOr1 | app/scripts/services/graph.js:208-209 | `size \|\| 1` is at least 1; it is the width itself when that is a positive number, and 1 when the width is missing or 0 |
| Cells.ShiftedBack | app/scripts/services/graph.js:979-986 | moving the vertices by an offset and then by its negation restores them |
| Cells.ShiftVertices | app/scripts/services/graph.js:980-985 | the vertex loop builds a new list of the same length, each vertex translated by the offset |
| Connection.LeftPortSize | app/scripts/services/graph.js:199-207 | the first left port whose id is the target magnet's `port` decides the width (the loop breaks there); with no such port there is no width; a width found comes from such a port |
| Connection.ScanLinks | app/scripts/services/graph.js:160-187 | the scan over the other wires passes exactly when no other wire feeds the target port, none leaves the source for a pull-up target, and none joins the source to a pull-up; a failure is one of those three warnings |
| Connection.ScanFindsFirstFailing | app/scripts/services/graph.js:162-186 | a warning from the scan is the one of the first wire, the drawn wire skipped, that fails a guard, and of the first guard it fails in the order multiple inputs, pull-up already connected, pull-up blocks others |
| Connection.Validate | app/scripts/services/graph.js:136-216 | accepts exactly when all rules hold (output-output, side rule, single input, both pull-up rules, input-only pull-up, width, no self-loop); an accepted wire carries no warning; output-to-output is rejected, with "Invalid connection" exactly when the magnets differ and no warning otherwise; a side violation is "Invalid connection"; once those pass, a failing scan rejects with the scan's warning; once the scan passes, a pull-up target fed by a non-input block warns "only Input blocks", a width mismatch warns with the wire's and the port's widths, and a self-loop is rejected with no warning |
| Connection.AcceptKeepsSingleIncoming | app/scripts/services/graph.js:169-174 | attaching an accepted wire to its target keeps every port with at most one incoming wire |
| Connection.AcceptKeepsPullupExclusive | app/scripts/services/graph.js:175-195 | attaching an accepted wire keeps a block that feeds a pull-up from feeding anything else |
| Notify.StepKeepsGate | app/scripts/services/graph.js:239-247 | one warning or one timer firing keeps the gate consistent; a warning is shown exactly when the gate was open |
| Notify.RunKeepsWarningsSpaced | app/scripts/services/graph.js:239-247 | over any run of warnings and timer firings, the warnings shown are at least 4000 ms apart and the list only grows |
| Notify.WarningGate.constructor | app/scripts/services/graph.js:237 | the gate starts open, with nothing shown |
| Notify.WarningGate.Warn | app/scripts/services/graph.js:239-247 | a warning is displayed exactly when the gate was open; it then closes the gate and schedules its reset 4000 ms later |
| Notify.WarningGate.ResetTimerFires | app/scripts/services/graph.js:243-245 | the timer re-opens the gate and shows nothing |
| PortDefaults.SetApplyShape | app/scripts/services/graph.js:515-521 | setting `apply` touches only the first defaulted port with each given name; names, the presence of defaults and every other port stay as they were |
| PortDefaults.SetApplyTwice | app/scripts/services/graph.js:509-527 | freeing ports name by name equals freeing them all at once |
| PortDefaults.SetKeepsAccurate | app/scripts/services/graph.js:509-527 | writing into a port's flag whether it is now fed keeps every flag equal to "no wire feeds this port" |
| PortDefaults.ConnectKeepsAccurate | app/scripts/services/graph.js:481-490 | adding a wire from a source into a free port keeps the flags accurate, each attached wire remembering its target, and one wire per port |
| PortDefaults.DetachKeepsAccurate | app/scripts/services/graph.js:491-495 | dragging a wire's target off its port frees that port (its last target) and keeps the flags accurate |
| PortDefaults.AttachKeepsAccurate | app/scripts/services/graph.js:485-490 | dropping a detached wire on a free port keeps the flags accurate |
| PortDefaults.RemoveKeepsAccurate | app/scripts/services/graph.js:498-507 | removing an attached wire frees its port and keeps the flags accurate |
| Canvas.StepUndone | app/scripts/services/graph.js:965-991 | a step by the negated offset undoes a step, for blocks and for wire vertices |
| Canvas.MovedOneMore | app/scripts/services/graph.js:968-969 | moving one more block, not moved before, is one map update |
| Canvas.ShiftOnlyOneMore | app/scripts/services/graph.js:979-988 | dragging one more wire, not dragged before, is one map update |
| Canvas.FreedNothing | app/scripts/services/graph.js:498-507 | removing no wire frees no port |
| Canvas.FreedOneMore | app/scripts/services/graph.js:498-507 | the `remove` handler of one more wire extends the freed ports by that wire's port |
| Canvas.RemovedSelectionShape | app/scripts/services/graph.js:899-905 | after removal the selected blocks are gone, other blocks change only their port defaults, and the wires left are exactly the unchanged wires attached to no selected block |
| Canvas.RemovedSelectionAccurate | app/scripts/services/graph.js:899-905 | on a graph whose wires are attached at both ends, removing the selection keeps every port-default flag accurate |
| Canvas.Without | app/scripts/services/graph.js:328-330 | `selection.without(cell)` holds exactly the other members, keeps a duplicate-free list duplicate-free, and changes nothing when the cell is absent |
| Canvas.Canvas.constructor | app/scripts/services/graph.js:16-32 | the service starts with no cells, an empty selection and no block being placed |
| Canvas.Canvas.UpdatePortDefault | app/scripts/services/graph.js:509-527 | the blocks become `PortDefaultSet` of the old ones; nothing else changes; an existing target block keeps its id |
| Canvas.Canvas.AddBlock | app/scripts/services/graph.js:1195-1199 | a new block is stored under its id; wires and selection unchanged |
| Canvas.Canvas.Select | app/scripts/services/graph.js:1154 | `selection.add(cell)` appends a block not yet selected |
| Canvas.Canvas.CancelSelection | app/scripts/services/graph.js:1121 | the selection becomes empty and the graph is unchanged |
| Canvas.Canvas.OnLinkChanged | app/scripts/services/graph.js:481-496 | the handler's effect on blocks and on the wire is `OnLinkChange` |
| Canvas.Canvas.AddLink | app/scripts/services/graph.js:481-490 | adding a wire fires the handler; a new wire from a source into a free port keeps the flags accurate |
| Canvas.Canvas.SetTarget | app/scripts/services/graph.js:481-496 | setting a wire's target fires the handler only when the value changes; detaching and re-attaching keep the flags accurate |
| Canvas.Canvas.SetSource | app/scripts/services/graph.js:481-496 | setting a wire's source fires the handler only when the value changes |
| Canvas.Canvas.RemoveLink | app/scripts/services/graph.js:498-507 | the wire leaves the graph and its target, or last target, is freed; removing an attached wire keeps the flags accurate |
| Canvas.Canvas.Step | app/scripts/services/graph.js:965-991 | every selected block moves by the offset, and every wire attached to a selected block has its vertices moved exactly once |
| Canvas.Canvas.MoveOne | app/scripts/services/graph.js:968-990 | one turn of the outer loop: one more block moved, its wires dragged, the set of processed wires extended by exactly those |
| Canvas.Canvas.DragAttached | app/scripts/services/graph.js:972-989 | the inner loop drags the wires of one block not yet processed and records them all |
| Canvas.Canvas.SelectAll | app/scripts/services/graph.js:817-827 | the selection holds exactly the blocks of the graph, without duplicates |
| Canvas.Canvas.SelectionBoxClick | app/scripts/services/graph.js:319-336 | while a block is being placed, the click ends the placement and clears the selection; otherwise shift-click drops the block from the selection |
| Canvas.Canvas.RemoveSelected | app/scripts/services/graph.js:899-905 | with a non-empty selection, the graph becomes `RemovedSelection` of the old one and the selection is cancelled; otherwise nothing changes |
| Canvas.Canvas.RemoveLinks | app/scripts/services/graph.js:899-905 | removing the wires one by one leaves the others and frees every port a removed wire fed |
| Canvas.Canvas.CopySelected | app/scripts/services/graph.js:799-803 | only a non-empty selection reaches the clipboard; the graph is unchanged |
| Canvas.Canvas.CutSelected | app/scripts/services/graph.js:792-797 | with a non-empty selection, the clipboard gets it and the graph becomes `RemovedSelection` of the old one (selected blocks and their wires gone, the ports those wires fed freed); otherwise nothing changes |
| Nudge.Offset | app/scripts/services/graph.js:917-933 | each arrow key moves 8 units along one axis, in its own direction |
| Nudge.PressOpensIffIdle | app/scripts/services/graph.js:941-950 | an honoured press opens a new batch exactly when none is open; a locked press changes nothing but the clock |
| Nudge.EventKeepsValid | app/scripts/services/graph.js:941-963 | a press or a timer firing keeps the timer state consistent and only appends to the history |
| Nudge.RunKeepsBracketed | app/scripts/services/graph.js:941-963 | over any run, batches never nest, every move happens inside a batch, and the history only grows |
| Nudge.BurstIsOneBatch | app/scripts/services/graph.js:941-963 | any burst of honoured presses, each 200 to 500 ms after the one before, adds its moves and at most one `startBatch`, and that only when no batch was open |
| Nudge.Nudger.constructor | app/scripts/services/graph.js:935-939 | `stepCounter = 0` and `allowStep = true` at start |
| Nudge.Nudger.PerformStep | app/scripts/services/graph.js:941-963 | an honoured press locks the keys for 200 ms, moves the selection as `step` does and (re)starts the 500 ms batch timer; a locked press moves nothing |
| Nudge.Nudger.StepKey | app/scripts/services/graph.js:919-933 | an arrow key is `performStep` with that key's offset: when the keys are unlocked the selected blocks move and their wires are dragged by it, when locked the graph is unchanged; the selection and the clipboard are kept |
| Nudge.Nudger.StopTimerFires | app/scripts/services/graph.js:954-956 | the 500 ms timer closes the batch |
| Nudge.Nudger.AllowTimerFires | app/scripts/services/graph.js:959-961 | the 200 ms timer unlocks the keys |
| Loading.ContainsFrom | app/scripts/services/graph.js:1056 | `indexOf('basic.') !== -1` holds exactly when "basic." occurs in the type at or after the start position |
| Loading.Blanked | app/scripts/services/graph.js:1061-1064 | every pin keeps its index and gets an empty name and the value 0 |
| Loading.Reset | app/scripts/services/graph.js:1057-1065 | only an input or output block under `reset` has its pins blanked; id, type, position and ports are kept |
| Loading.ResetIdempotent | app/scripts/services/graph.js:1057-1065 | resetting twice is resetting once |
| Loading.BlankPins | app/scripts/services/graph.js:1061-1064 | the pin loop computes `Blanked` |
| Loading.Load | app/scripts/services/graph.js:1056-1072 | the loader keeps the instance's id, type, position and data; a generic block takes its left ports from the registry |
| Loading.Placed | app/scripts/services/graph.js:1079-1081 | an offset moves the cell's position and nothing else |
| Loading.ShiftedInstance | app/scripts/services/graph.js:1090-1102 | an offset moves every vertex of the wire instance and nothing else |
| Loading.IdSupply.constructor | app/scripts/services/graph.js:1074-1077 | the supply starts with every id already in use marked used, so no clone can reuse one |
| Loading.IdSupply.Fresh | app/scripts/services/graph.js:1076 | a clone's id was never used before |
| Loading.RecordKeeps | app/scripts/services/graph.js:1073-1077 | recording one more instance in `blocksMap` keeps it resolving each id to the cell of the last instance carrying it |
| Loading.LoadBlock | app/scripts/services/graph.js:1055-1084 | one block: reset when asked, loaded, cloned to a fresh id under `new`, translated by the offset |
| Loading.BlocksDoneStep | app/scripts/services/graph.js:1055-1084 | one more turn of the blocks loop keeps its invariant |
| Loading.LoadBlocks | app/scripts/services/graph.js:1055-1084 | the blocks loop: the design is reset in place, every instance becomes its cell in order, and `blocksMap` is complete |
| Loading.LoadOneWire | app/scripts/services/graph.js:1087-1109 | one wire: vertices moved by the offset, loaded between the resolved cells, fresh id |
| Loading.LoadWires | app/scripts/services/graph.js:1087-1109 | the wires loop: every wire loaded between the cells its ends resolve to, each with its own fresh id |
| Loading.BlocksDoneGrows | app/scripts/services/graph.js:1041-1112 | a block id taken fresh stays fresh as later ids are taken |
| Loading.EndsKnown | app/scripts/services/graph.js:1088-1089 | after the blocks loop, every block id a wire names resolves through `blocksMap` |
| Loading.CellIdsApart | app/scripts/services/graph.js:1074-1105 | under `new`, no block cell and wire cell share an id |
| Loading.WiresResolve | app/scripts/services/graph.js:1087-1103 | each wire is attached at both ends to the cell of an instance carrying the id its end names |
| Loading.ResolveWires | app/scripts/services/graph.js:1087-1109 | the wires loop once the blocks are loaded: every wire resolves, with distinct fresh ids |
| Loading.GraphToCells | app/scripts/services/graph.js:1041-1112 | blocks become cells in design order, reset and offset as asked; every wire is attached at both ends to a block cell of the result (under `new`, to the clone of the block it named); all ids handed out are fresh and distinct; the returned cell list holds every block cell, in design order, before every wire cell, in design order |
| Loading.OriginIsMinimum | app/scripts/services/graph.js:1162-1174 | the origin is (Infinity, Infinity) without blocks; otherwise it is at most every block position in each coordinate and is attained by some block in each coordinate |
| Loading.OriginMoves | app/scripts/services/graph.js:1133-1144 | moving every block by an offset moves the origin by that offset |
| Loading.Merged | app/scripts/services/graph.js:1124-1128 | the merge adds exactly the incoming types; registered definitions never change; new types take the incoming definition |
| Loading.MergedIdempotent | app/scripts/services/graph.js:1124-1128 | merging the same dependencies twice changes nothing the second time |
| Loading.MergedKnown | app/scripts/services/graph.js:1124-1128 | after the merge, every known and every incoming type can be loaded |
| Loading.Registry.constructor | app/scripts/services/graph.js:1125-1127 | the registry starts as the given `common.allDependencies` |
| Loading.Registry.Merge | app/scripts/services/graph.js:1124-1128 | the merge loop computes `Merged` |
| Append.WithBlocksKeys | app/scripts/services/graph.js:1145 | adding blocks adds exactly their ids |
| Append.WithBlocksShape | app/scripts/services/graph.js:1145 | adding blocks with distinct ids stores each under its id and keeps every other block |
| Append.LinkedKeys | app/scripts/services/graph.js:1145 | adding wires adds exactly their ids and keeps the block ids |
| Append.LinkedLast | app/scripts/services/graph.js:481-490 | one more attached wire is stored under its id with its target recorded as its last one, on top of the earlier wires |
| Append.LinkedShape | app/scripts/services/graph.js:481-490 | each added attached wire is stored with its target recorded as its last one; every other wire is kept |
| Append.LinkedKeepsAccurate | app/scripts/services/graph.js:481-490 | adding wires into free, distinct ports keeps every port-default flag accurate |
| Append.LinkedLastBlocks | app/scripts/services/graph.js:481-490 | one more attached wire sets the default flag of the port it feeds to "does not apply", on top of the earlier wires |
| Append.SettleFlags | app/scripts/services/graph.js:481-490 | when every port the added wires reach is already fed in the final wires, each `add` handler writes a flag that already says "fed", so accurate flags stay accurate |
| Append.FedAfterLinked | app/scripts/services/graph.js:481-490 | after adding wires with fresh, distinct ids, a port is fed exactly when an old wire or an added wire feeds it |
| Append.PastedDefaults | app/scripts/services/graph.js:509-527 | with the old flags accurate, the old wires ending at old blocks and the pasted blocks' flags matching the pasted wires, every flag of the merged graph agrees with all wires |
| Append.PastedWiresSound | app/scripts/services/graph.js:481-490 | pasted wires into free, distinct ports keep every attached wire tracking its target and every port with one wire |
| Append.PastedAccurate | app/scripts/services/graph.js:1114-1160 | an ordinary paste (old flags accurate, old wires ending at old blocks, fresh pasted blocks whose flags match the pasted wires, those wires feeding free, distinct ports of the pasted blocks) keeps the flags accurate |
| Append.AddedInOrder | app/scripts/services/graph.js:1055-1111 | adding block cells followed by wire cells is adding the blocks first and then the wires, each wire firing the `add` handler |
| Append.AddCells | app/scripts/services/graph.js:1145 | each cell is added in turn, a wire firing the `add` handler: the graph becomes `Added` of the old one |
| Append.CellsApart | app/scripts/services/graph.js:1055-1111 | the cells of a pasted design have distinct ids, none already used |
| Append.PastedIdsUsed | app/scripts/services/graph.js:1074-1106 | every pasted block id is new, and every pasted block and wire id is marked used afterwards |
| Append.Placed | app/scripts/services/graph.js:1145 | the pasted blocks are stored as loaded, the pasted wires with their targets recorded, every old wire kept; the flags stay accurate when the old ones were, the old wires end at old blocks, the pasted blocks' flags match the pasted wires and those wires feed free, distinct ports |
| Append.TargetsPasted | app/scripts/services/graph.js:1090-1108 | every wire of a pasted design ends at a pasted block |
| Append.PasteCells | app/scripts/services/graph.js:1145-1158 | the cells are added (the graph becomes `Added`, then `Linked` of the blocks as loaded), old wires are kept, the flags stay accurate under the paste condition, and the pasted blocks become the selection |
| Append.SelectPasted | app/scripts/services/graph.js:1147-1158 | the pasted blocks become the selection, in order |
| Append.AppendDesign | app/scripts/services/graph.js:1114-1160 | the registry is merged; the pasted blocks are loaded from the design with fresh ids (reset for another board); every pasted wire is attached to them; the graph becomes the old one with the pasted blocks added as loaded and then the pasted wires, each firing the `add` handler (stored with its target recorded as its last one, the port it feeds losing its default); old wires are kept; the port-default flags stay accurate when they were, the old wires end at old blocks, the pasted blocks' flags match the pasted wires and those wires feed free, distinct ports; the selection is exactly the pasted blocks; the used ids only grow, and every id in the graph stays marked used, so a second paste may follow |

## Left out

- The DOM, CSS, z-index stacking, `updateCellAttributes`, `updateWiresOnObstacles`
  and `selectionView` boxes: they are rendering and carry no graph state.
- `fitContent`, `setState`, pan and zoom, breadcrumbs, board rules,
  `appEnable`, `selectLanguage`, `setInfo`, `resetCodeErrors` and the code-error
  handler: they are viewport, UI and build-feedback concerns outside this core.
- The click and double-click timers (`cell:pointerclick`, `cell:pointerdblclick`,
  block editing) and `loadDesign` with its deferred `setTimeout` and paused
  command history: UI sequencing.
- `resetBlocks`, `selectBoard`, `createBlock`, `addDraggableCell(s)`, undo and
  redo: the command manager internals and the block factories live in other
  services.
- Clipboard I/O (`utils.copyToClipboard` / `pasteFromClipboard`) and
  `pasteSelected`: the clipboard is a field holding the ids copied.
- Warnings are tags, not localised text. `alertify` is a list of shown warnings.
- JointJS cell ids (UUIDs) are natural numbers from a counter (`IdSupply`). Only
  freshness and equality matter.
- `blocks.loadBasic`, `loadGeneric`, `loadWire` and `cell.clone` belong to other
  services. They are stand-ins: loading keeps the instance's id and data, a
  generic block takes its left ports and pull-up flag from its dependency, a
  basic block is never a pull-up, a loaded wire gets a fresh id and a clone
  another.
- Connection.Validate: every other wire must end at a block of the graph
  (`Settled`), because the source reads `linkIView.targetView` without a guard.
  Without link pinning the editor never leaves a wire dangling. The magnets of
  both ends are present.
- Canvas.Canvas.SelectAll: the order of the selection is not modelled. The graph
  is a map, so only the set of selected blocks is stated, not JointJS's cell
  order.
- Canvas.Canvas.Step: the source test `if (vertices && vertices.length)` is
  kept; a wire without vertices is left as it was.
- Nudge.Nudger.PerformStep: `if (selection && allowStep)`. The selection is
  always a collection, so only `allowStep` gates the press.
- Nudge.Nudger.PerformStep: the handler runs in one instant. The two
  `Date.now()` calls and the arming of the 500 ms timer all see the same
  `now`, and every timer fires exactly when due. In the browser, a `step` that
  takes d ms arms the stop timer d ms before `stepCounter` is set, and a timer
  may fire late. A press between the timer's due time and `stepCounter + 500`
  then moves the selection outside any batch, and its later `stopBatch` has no
  matching `startBatch`. A late stop timer lets a press 500 ms or more later
  open a batch while one is still open. So `Nudge.RunKeepsBracketed` and
  `Nudge.BurstIsOneBatch` hold for this idealised clock only.
- Nudge.Nudger.constructor: `Date.now()` is epoch milliseconds, so the first
  press is always more than 500 ms after `stepCounter = 0`. The constructor
  requires a start time of at least 500.
- Pins, ports and vertices are sequence values inside the cells. The design's
  blocks and wires are arrays, because `graphToCells` rewrites them in place.
- Loading.GraphToCells: every block type must be basic or registered. When a
  type is neither, the source keeps the previous `cell` and pushes it again (or
  fails on the first block); that quirk is excluded by a precondition.
- Loading.GraphToCells: a block's `translate` is a change of position only; the
  embedded children JointJS would move along are not modelled.
- Append.AppendDesign: the offset is a parameter. Its computation from the mouse
  position, the pan, the zoom, the menu height and the grid
  (`Math.round(... / gridsize) * gridsize`) is floating-point view arithmetic.
  The guard that design, dependencies, graph, blocks and wires are present is
  assumed. Every pasted wire must name blocks of the pasted design.
- The JavaScript `in` operator also finds inherited properties
  (`'constructor' in {}`); the registry is a plain map here.
- Connection.Validate: the checks run in the code's order. First the
  output-to-output rule and the side rules; then the scan of every other wire
  (the single-input and both pull-up rules, wire by wire); then the input-only
  pull-up rule; then the width rule; last the self-loop rule, which shows no
  warning.
- Canvas.Canvas.SetTarget: a wire whose target moves straight from one port to
  another, which link snapping within a 16-unit radius can do, clears the new
  port's flag but never gives the old port its default back. The flags are
  proved accurate only for detaching and re-attaching through a dangling end,
  not for such a direct move.
- Loading.Load: the basic-block loader is a stand-in that gives every basic
  block no left ports. The widths a code block declares on its input ports are
  not modelled, so the width rule of `validateConnection` is only exercised on
  generic blocks.
- Append.AppendDesign: the pasted blocks' flags come from the design's data.
  Accuracy after pasting is stated under the condition that the old flags are
  accurate, the old wires end at old blocks, the pasted blocks' flags match the
  pasted wires (`FlagsMatch`, what a design copied from an accurate graph
  carries) and the pasted wires feed free, distinct ports. A design with stale
  flags is not covered.