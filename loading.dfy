/** Turning a design document into graph cells (`graphToCells`), the origin of a
    design (`graphOrigin`) and the dependency registry that `appendDesign` merges
    into. The block and wire loaders and `cell.clone` belong to other services;
    here they are stand-ins that keep what this file relies on: loading keeps the
    instance's id, and a clone, like a new wire, takes a fresh id from an
    `IdSupply`. */
module Loading {
  import opened Cells

  /** A wire end in a design: a block instance id and a port name. */
  datatype PortRef = PortRef(block: Id, port: string)

  datatype BlockInstance = BlockInstance(id: Id, blockType: string, position: Point, data: BlockData)

  /** A wire in a design; a missing `vertices` list is the empty one. */
  datatype WireInstance = WireInstance(source: PortRef, target: PortRef, size: Option<nat>, vertices: seq<Point>)

  /** A generic block's definition, reduced to what a loaded block takes from it. */
  datatype Dependency = Dependency(leftPorts: seq<LeftPort>, pullup: bool)

  /** The options `new`, `reset`, `disabled` and `offset`. */
  datatype Options = Options(isNew: bool, reset: bool, disabled: bool, offset: Option<Point>)

  const BasicMark := "basic."

  /** "basic." occurs in `t` at position `i`. */
  predicate MarkAt(t: string, i: int)
  {
    0 <= i && i + |BasicMark| <= |t| && t[i..i + |BasicMark|] == BasicMark
  }

  /** `t.indexOf('basic.') !== -1`, searched from position `from`. */
  function ContainsFrom(t: string, from: nat): (r: bool)
    requires from <= |t|
    ensures r <==> exists i :: from <= i && MarkAt(t, i)
    decreases |t| - from
  {
    if from + |BasicMark| > |t| then false
    else if t[from..from + |BasicMark|] == BasicMark then assert MarkAt(t, from); true
    else ContainsFrom(t, from + 1)
  }

  /** A block type is basic when "basic." occurs anywhere in it. */
  predicate IsBasic(t: string)
  {
    ContainsFrom(t, 0)
  }

  /** The types `graphToCells` can load: basic ones and registered dependencies. */
  predicate Known(t: string, deps: map<string, Dependency>)
  {
    IsBasic(t) || t in deps
  }

  predicate IsIO(t: string)
  {
    t == "basic.input" || t == "basic.output"
  }

  /** Every pin with an empty name and the value 0. */
  function Blanked(pins: seq<Pin>): (r: seq<Pin>)
    ensures |r| == |pins|
    ensures forall k :: 0 <= k < |pins| ==> r[k] == Pin(pins[k].index, "", Num(0))
  {
    seq(|pins|, k requires 0 <= k < |pins| => Pin(pins[k].index, "", Num(0)))
  }

  /** The `reset` option on one instance: an input or output block has its pins
      blanked; every other instance is left alone. */
  function Reset(inst: BlockInstance, reset: bool): (r: BlockInstance)
    ensures r.id == inst.id && r.blockType == inst.blockType && r.position == inst.position
    ensures r.data.inPorts == inst.data.inPorts && |r.data.pins| == |inst.data.pins|
    ensures !(reset && IsIO(inst.blockType)) ==> r == inst
    ensures reset && IsIO(inst.blockType) ==>
              forall k :: 0 <= k < |r.data.pins| ==>
                r.data.pins[k].index == inst.data.pins[k].index && r.data.pins[k].name == "" && r.data.pins[k].value == Num(0)
  {
    if reset && IsIO(inst.blockType) then inst.(data := inst.data.(pins := Blanked(inst.data.pins))) else inst
  }

  /** Resetting twice is resetting once. */
  lemma ResetIdempotent(inst: BlockInstance, reset: bool)
    ensures Reset(Reset(inst, reset), reset) == Reset(inst, reset)
  {
    if reset && IsIO(inst.blockType) {
      var once := Blanked(inst.data.pins);
      assert Blanked(once) == once;
    }
  }

  /** The pin loop of `graphToCells`, rewriting each pin in turn. */
  method BlankPins(pins: seq<Pin>) returns (r: seq<Pin>)
    ensures r == Blanked(pins)
  {
    r := pins;
    var i := 0;
    while i < |r|
      invariant 0 <= i <= |r| && |r| == |pins|
      invariant forall k :: 0 <= k < i ==> r[k] == Pin(pins[k].index, "", Num(0))
      invariant forall k :: i <= k < |r| ==> r[k] == pins[k]
    {
      r := r[i := r[i].(name := "", value := Num(0))];
      i := i + 1;
    }
  }

  /** `blocks.loadBasic(instance, disabled)`: keeps the instance's id, type,
      position and data; a basic block is no pull-up and declares no sized
      left ports. */
  function LoadBasic(inst: BlockInstance, disabled: bool): Block
  {
    Block(inst.id, inst.blockType, false, inst.position, [], inst.data, disabled)
  }

  /** `blocks.loadGeneric(instance, dependency, disabled)`: as `loadBasic`, with the
      left ports and the pull-up flag of the dependency. */
  function LoadGeneric(inst: BlockInstance, dep: Dependency, disabled: bool): Block
  {
    Block(inst.id, inst.blockType, dep.pullup, inst.position, dep.leftPorts, inst.data, disabled)
  }

  /** The loader `graphToCells` picks for an instance. */
  function Load(inst: BlockInstance, disabled: bool, deps: map<string, Dependency>): (b: Block)
    requires Known(inst.blockType, deps)
    ensures b.id == inst.id && b.blockType == inst.blockType && b.position == inst.position
    ensures b.data == inst.data && b.disabled == disabled
    ensures !IsBasic(inst.blockType) ==> b.leftPorts == deps[inst.blockType].leftPorts
  {
    if IsBasic(inst.blockType) then LoadBasic(inst, disabled)
    else LoadGeneric(inst, deps[inst.blockType], disabled)
  }

  /** `cell.translate(offset.x, offset.y)` when an offset is given. */
  function Placed(b: Block, offset: Option<Point>): (r: Block)
    ensures r == b.(position := r.position)
    ensures r.position == if offset.Some? then Translate(b.position, offset.value) else b.position
  {
    if offset.Some? then b.(position := Translate(b.position, offset.value)) else b
  }

  /** The vertex rewrite of a wire instance when an offset is given. */
  function ShiftedInstance(w: WireInstance, offset: Option<Point>): (r: WireInstance)
    ensures r == w.(vertices := r.vertices) && |r.vertices| == |w.vertices|
    ensures offset.Some? ==>
              forall k :: 0 <= k < |w.vertices| ==> r.vertices[k] == Translate(w.vertices[k], offset.value)
    ensures offset.None? ==> r == w
  {
    if offset.Some? then w.(vertices := Shifted(w.vertices, offset.value)) else w
  }

  /** `blocks.loadWire(instance, source, target)` with the cell id JointJS gives
      it: both ends attached, no `lastTarget` yet. */
  function LoadWire(inst: WireInstance, source: Id, target: Id, id: Id): Wire
  {
    Wire(id, Some(Endpoint(source, inst.source.port)), Some(Endpoint(target, inst.target.port)), None,
         inst.size, inst.vertices)
  }

  /** The instance ids of a design's blocks. */
  function InstanceIds(bs: seq<BlockInstance>): set<Id>
  {
    set k | 0 <= k < |bs| :: bs[k].id
  }

  /** The instance ids of a design's blocks, in order. */
  function IdsOf(bs: seq<BlockInstance>): seq<Id>
  {
    seq(|bs|, k requires 0 <= k < |bs| => bs[k].id)
  }

  /** The source of fresh cell ids: every id handed out or reserved is below
      `next`. */
  class IdSupply {
    var next: nat
    var used: set<Id>

    ghost predicate Valid()
      reads this
    {
      forall u :: u in used ==> u < next
    }

    /** A supply that avoids every id in `inUse`. */
    constructor (inUse: set<Id>)
      ensures Valid() && used == inUse
    {
      var rest := inUse;
      var top: nat := 0;
      while rest != {}
        invariant rest <= inUse
        invariant forall u :: u in inUse - rest ==> u < top
        decreases rest
      {
        var u :| u in rest;
        if top <= u {
          top := u + 1;
        }
        assert inUse - (rest - {u}) == (inUse - rest) + {u};
        rest := rest - {u};
      }
      assert inUse - rest == inUse;
      next := top;
      used := inUse;
    }

    /** An id never used before, now used. */
    method Fresh() returns (id: Id)
      requires Valid()
      modifies this
      ensures Valid()
      ensures id !in old(used) && used == old(used) + {id}
    {
      id := next;
      next := next + 1;
      used := used + {id};
    }
  }

  /** `cell` is what the loader made of `inst` under `opt`, but for its id. */
  predicate LoadedFrom(cell: Block, inst: BlockInstance, opt: Options, deps: map<string, Dependency>)
  {
    Known(inst.blockType, deps) && cell == Placed(Load(inst, opt.disabled, deps), opt.offset).(id := cell.id)
  }

  /** The id rule: fresh under `new`, the instance's own otherwise. */
  predicate IdRule(cell: Block, inst: BlockInstance, isNew: bool, before: set<Id>, after: set<Id>)
  {
    if isNew then cell.id in after && cell.id !in before else cell.id == inst.id
  }

  /** After `k` turns of the blocks loop, `blocksMap` holds exactly the first
      `k` instance ids, and `from` names for each the last of those instances
      carrying it, whose cell the id resolves to. */
  ghost predicate Tracks(iids: seq<Id>, k: nat, cells: seq<Block>, blocksMap: map<Id, Id>, from: map<Id, nat>)
  {
    && k <= |iids| && |cells| == k
    && (forall j :: 0 <= j < k ==> iids[j] in blocksMap)
    && from.Keys == blocksMap.Keys
    && (forall x :: x in from ==> from[x] < k && iids[from[x]] == x && blocksMap[x] == cells[from[x]].id)
    && (forall j :: 0 <= j < k ==> j <= from[iids[j]])
  }

  /** One more turn: recording instance `k` under its id keeps the bookkeeping. */
  lemma RecordKeeps(iids: seq<Id>, k: nat, cells: seq<Block>, blocksMap: map<Id, Id>, from: map<Id, nat>, cell: Block)
    requires Tracks(iids, k, cells, blocksMap, from) && k < |iids|
    ensures Tracks(iids, k + 1, cells + [cell], blocksMap[iids[k] := cell.id], from[iids[k] := k])
  {
    var cells' := cells + [cell];
    var from' := from[iids[k] := k];
    var map' := blocksMap[iids[k] := cell.id];
    forall x | x in from' ensures from'[x] < k + 1 && iids[from'[x]] == x && map'[x] == cells'[from'[x]].id {
      if x != iids[k] {
        assert cells'[from[x]] == cells[from[x]];
      }
    }
  }

  /** One turn of the blocks loop of `graphToCells`: the instance as reset when
      asked, and its cell, loaded, cloned to a fresh id under `new` and
      translated by the offset. */
  method LoadBlock(inst: BlockInstance, opt: Options, deps: map<string, Dependency>, ids: IdSupply)
    returns (reset: BlockInstance, cell: Block)
    requires ids.Valid() && Known(inst.blockType, deps)
    modifies ids
    ensures ids.Valid() && old(ids.used) <= ids.used
    ensures reset == Reset(inst, opt.reset) && LoadedFrom(cell, reset, opt, deps)
    ensures IdRule(cell, inst, opt.isNew, old(ids.used), ids.used)
    ensures !opt.isNew ==> ids.used == old(ids.used)
  {
    reset := inst;
    if IsBasic(inst.blockType) {
      if opt.reset && IsIO(inst.blockType) {
        var pins := BlankPins(inst.data.pins);
        reset := inst.(data := inst.data.(pins := pins));
      }
      cell := LoadBasic(reset, opt.disabled);
    } else {
      cell := LoadGeneric(reset, deps[inst.blockType], opt.disabled);
    }
    if opt.isNew {
      var newId := ids.Fresh();
      cell := cell.(id := newId);
    }
    if opt.offset.Some? {
      cell := cell.(position := Translate(cell.position, opt.offset.value));
    }
  }

  /** After `k` turns of the blocks loop: the design `orig` has become `now`
      (the first `k` instances reset when asked, the rest untouched), and
      `cells` holds what the first `k` instances became. */
  ghost predicate BlocksDone(orig: seq<BlockInstance>, now: seq<BlockInstance>, k: nat, cells: seq<Block>,
                             opt: Options, deps: map<string, Dependency>, before: set<Id>, after: set<Id>)
  {
    && |now| == |orig| && k <= |orig| && |cells| == k
    && (forall j :: 0 <= j < k ==> now[j] == Reset(orig[j], opt.reset))
    && (forall j :: k <= j < |orig| ==> now[j] == orig[j])
    && (forall j :: 0 <= j < k ==> LoadedFrom(cells[j], now[j], opt, deps))
    && (forall j :: 0 <= j < k ==> IdRule(cells[j], now[j], opt.isNew, before, after))
    && (opt.isNew ==> forall i, j :: 0 <= i < j < k ==> cells[i].id != cells[j].id)
  }

  /** One more turn of the blocks loop keeps `BlocksDone`. */
  lemma BlocksDoneStep(orig: seq<BlockInstance>, now: seq<BlockInstance>, k: nat, cells: seq<Block>,
                       opt: Options, deps: map<string, Dependency>, before: set<Id>, mid: set<Id>, after: set<Id>,
                       inst: BlockInstance, cell: Block)
    requires BlocksDone(orig, now, k, cells, opt, deps, before, mid) && k < |orig|
    requires before <= mid <= after
    requires inst == Reset(orig[k], opt.reset) && LoadedFrom(cell, inst, opt, deps)
    requires IdRule(cell, orig[k], opt.isNew, mid, after)
    ensures BlocksDone(orig, now[k := inst], k + 1, cells + [cell], opt, deps, before, after)
  {
    var now', cells' := now[k := inst], cells + [cell];
    forall j | 0 <= j < k + 1 ensures IdRule(cells'[j], now'[j], opt.isNew, before, after) {
      if j < k {
        assert cells'[j] == cells[j] && now'[j] == now[j];
        assert IdRule(cells[j], now[j], opt.isNew, before, mid);
      }
    }
    if opt.isNew {
      forall i, j | 0 <= i < j < k + 1 ensures cells'[i].id != cells'[j].id {
        if j == k {
          assert IdRule(cells[i], now[i], opt.isNew, before, mid);
        }
      }
    }
  }

  /** The blocks loop of `graphToCells`. Each instance is reset when asked (in
      the design itself) and becomes a cell; `blocksMap` sends every instance
      id to the cell that the last instance with that id became. */
  method LoadBlocks(bs: array<BlockInstance>, opt: Options, deps: map<string, Dependency>, ids: IdSupply)
    returns (blocks: seq<Block>, cells: seq<Cell>, blocksMap: map<Id, Id>, ghost from: map<Id, nat>)
    requires ids.Valid()
    requires forall k :: 0 <= k < bs.Length ==> Known(bs[k].blockType, deps)
    modifies bs, ids
    ensures ids.Valid() && old(ids.used) <= ids.used
    ensures BlocksDone(old(bs[..]), bs[..], bs.Length, blocks, opt, deps, old(ids.used), ids.used)
    ensures Tracks(IdsOf(bs[..]), bs.Length, blocks, blocksMap, from)
    ensures |cells| == bs.Length && forall k :: 0 <= k < bs.Length ==> cells[k] == BlockCell(blocks[k])
  {
    ghost var orig := bs[..];
    ghost var iids := IdsOf(bs[..]);
    blocks := [];
    cells := [];
    blocksMap := map[];
    from := map[];
    var k := 0;
    while k < bs.Length
      invariant 0 <= k <= bs.Length
      invariant ids.Valid() && old(ids.used) <= ids.used
      invariant BlocksDone(orig, bs[..], k, blocks, opt, deps, old(ids.used), ids.used)
      invariant Tracks(iids, k, blocks, blocksMap, from)
      invariant |cells| == k && forall j :: 0 <= j < k ==> cells[j] == BlockCell(blocks[j])
    {
      assert bs[k] == orig[k] && Known(orig[k].blockType, deps);
      ghost var mid := ids.used;
      ghost var now := bs[..];
      var inst: BlockInstance, cell: Block;
      inst, cell := LoadBlock(bs[k], opt, deps, ids);
      assert inst.id == iids[k];
      RecordKeeps(iids, k, blocks, blocksMap, from, cell);
      BlocksDoneStep(orig, now, k, blocks, opt, deps, old(ids.used), mid, ids.used, inst, cell);
      bs[k] := inst;
      assert bs[..] == now[k := inst];
      // `blocksMap[cell.id] = cell`, overwritten under `new` by `blocksMap[oldId] = clone`.
      blocksMap := blocksMap[inst.id := cell.id];
      from := from[inst.id := k];
      blocks := blocks + [cell];
      cells := cells + [BlockCell(cell)];
      k := k + 1;
    }
    assert iids == IdsOf(bs[..]);
  }

  /** One turn of the wires loop of `graphToCells`: the instance with its
      vertices moved by the offset, and its wire with a fresh id. */
  method LoadOneWire(inst: WireInstance, blocksMap: map<Id, Id>, opt: Options, ids: IdSupply)
    returns (moved: WireInstance, w: Wire)
    requires ids.Valid() && inst.source.block in blocksMap && inst.target.block in blocksMap
    modifies ids
    ensures ids.Valid() && old(ids.used) <= ids.used
    ensures moved == ShiftedInstance(inst, opt.offset)
    ensures w == LoadWire(moved, blocksMap[inst.source.block], blocksMap[inst.target.block], w.id)
    ensures w.id in ids.used && w.id !in old(ids.used)
  {
    moved := inst;
    if opt.offset.Some? {
      var vertices := ShiftVertices(inst.vertices, opt.offset.value);
      moved := inst.(vertices := vertices);
    }
    var id := ids.Fresh();
    w := LoadWire(moved, blocksMap[inst.source.block], blocksMap[inst.target.block], id);
    if opt.isNew {
      var cloned := ids.Fresh();
      w := w.(id := cloned);
    }
  }

  /** The wires loop of `graphToCells`. Under an offset each instance's vertices
      are rewritten (in the design itself); each wire is loaded between the
      cells its ends resolve to through `blocksMap`, taking a fresh id, and is
      cloned to another fresh id under `new`. */
  method LoadWires(ws: array<WireInstance>, blocksMap: map<Id, Id>, opt: Options, ids: IdSupply, pushed: seq<Cell>)
    returns (wires: seq<Wire>, cells: seq<Cell>)
    requires ids.Valid()
    requires forall k :: 0 <= k < ws.Length ==> ws[k].source.block in blocksMap && ws[k].target.block in blocksMap
    modifies ws, ids
    ensures ids.Valid() && old(ids.used) <= ids.used
    ensures forall k :: 0 <= k < ws.Length ==> ws[k] == ShiftedInstance(old(ws[k]), opt.offset)
    ensures forall k :: 0 <= k < ws.Length ==> ws[k].source.block in blocksMap && ws[k].target.block in blocksMap
    ensures |wires| == ws.Length
    ensures forall k :: 0 <= k < ws.Length ==>
              wires[k] == LoadWire(ws[k], blocksMap[ws[k].source.block], blocksMap[ws[k].target.block], wires[k].id)
    ensures forall k :: 0 <= k < ws.Length ==> wires[k].id in ids.used && wires[k].id !in old(ids.used)
    ensures forall i, j :: 0 <= i < j < ws.Length ==> wires[i].id != wires[j].id
    ensures |cells| == |pushed| + ws.Length
    ensures forall k :: 0 <= k < |pushed| ==> cells[k] == pushed[k]
    ensures forall k :: 0 <= k < ws.Length ==> cells[|pushed| + k] == WireCell(wires[k])
  {
    wires := [];
    cells := pushed;
    var k := 0;
    while k < ws.Length
      invariant 0 <= k <= ws.Length && |wires| == k
      invariant ids.Valid() && old(ids.used) <= ids.used
      invariant forall j :: 0 <= j < k ==> ws[j] == ShiftedInstance(old(ws[j]), opt.offset)
      invariant forall j :: k <= j < ws.Length ==> ws[j] == old(ws[j])
      invariant forall j :: 0 <= j < k ==>
                  wires[j] == LoadWire(ws[j], blocksMap[ws[j].source.block], blocksMap[ws[j].target.block], wires[j].id)
      invariant forall j :: 0 <= j < k ==> wires[j].id in ids.used && wires[j].id !in old(ids.used)
      invariant forall i, j :: 0 <= i < j < k ==> wires[i].id != wires[j].id
      invariant |cells| == |pushed| + k
      invariant forall j :: 0 <= j < |pushed| ==> cells[j] == pushed[j]
      invariant forall j :: 0 <= j < k ==> cells[|pushed| + j] == WireCell(wires[j])
    {
      var inst, w := LoadOneWire(ws[k], blocksMap, opt, ids);
      ws[k] := inst;
      wires := wires + [w];
      cells := cells + [WireCell(w)];
      k := k + 1;
    }
  }

  /** A loaded id rule stays true as more ids get used. */
  lemma BlocksDoneGrows(orig: seq<BlockInstance>, now: seq<BlockInstance>, k: nat, cells: seq<Block>,
                        opt: Options, deps: map<string, Dependency>, before: set<Id>, after: set<Id>, later: set<Id>)
    requires BlocksDone(orig, now, k, cells, opt, deps, before, after) && after <= later
    ensures BlocksDone(orig, now, k, cells, opt, deps, before, later)
  {
    forall j | 0 <= j < k ensures IdRule(cells[j], now[j], opt.isNew, before, later) {
      assert IdRule(cells[j], now[j], opt.isNew, before, after);
    }
  }

  /** `w` is the wire loaded from `inst`: both ends attached, each to the cell
      of a block instance carrying the id the end names, and the size and the
      vertices of the instance. */
  ghost predicate WireResolved(w: Wire, inst: WireInstance, bs: seq<BlockInstance>, blocks: seq<Block>)
  {
    && w.source.Some? && w.target.Some? && w.lastTarget.None?
    && w.size == inst.size && w.vertices == inst.vertices
    && (exists j :: 0 <= j < |bs| && j < |blocks| && bs[j].id == inst.source.block
                    && w.source.value == Endpoint(blocks[j].id, inst.source.port))
    && (exists j :: 0 <= j < |bs| && j < |blocks| && bs[j].id == inst.target.block
                    && w.target.value == Endpoint(blocks[j].id, inst.target.port))
  }

  /** After the blocks loop every instance id a wire names is in `blocksMap`. */
  lemma EndsKnown(orig: seq<BlockInstance>, now: seq<BlockInstance>, cells: seq<Block>, blocksMap: map<Id, Id>,
                  from: map<Id, nat>, ws: seq<WireInstance>,
                  opt: Options, deps: map<string, Dependency>, before: set<Id>, after: set<Id>)
    requires BlocksDone(orig, now, |orig|, cells, opt, deps, before, after)
    requires Tracks(IdsOf(now), |now|, cells, blocksMap, from)
    requires forall k :: 0 <= k < |ws| ==>
               ws[k].source.block in InstanceIds(orig) && ws[k].target.block in InstanceIds(orig)
    ensures forall k :: 0 <= k < |ws| ==> ws[k].source.block in blocksMap && ws[k].target.block in blocksMap
  {
    forall k | 0 <= k < |ws| ensures ws[k].source.block in blocksMap && ws[k].target.block in blocksMap {
      var i :| 0 <= i < |orig| && orig[i].id == ws[k].source.block;
      var j :| 0 <= j < |orig| && orig[j].id == ws[k].target.block;
      assert IdsOf(now)[i] == now[i].id == orig[i].id;
      assert IdsOf(now)[j] == now[j].id == orig[j].id;
    }
  }

  /** Under `new`, block cells took their ids before the wires took theirs,
      all fresh, so no block and wire share an id. */
  lemma CellIdsApart(orig: seq<BlockInstance>, now: seq<BlockInstance>, blocks: seq<Block>, wires: seq<Wire>,
                     opt: Options, deps: map<string, Dependency>, before: set<Id>, mid: set<Id>, after: set<Id>)
    requires BlocksDone(orig, now, |orig|, blocks, opt, deps, before, mid)
    requires forall k :: 0 <= k < |wires| ==> wires[k].id !in mid
    ensures opt.isNew ==> forall i, j :: 0 <= i < |blocks| && 0 <= j < |wires| ==> blocks[i].id != wires[j].id
  {
    if opt.isNew {
      forall i, j | 0 <= i < |blocks| && 0 <= j < |wires| ensures blocks[i].id != wires[j].id {
        assert IdRule(blocks[i], now[i], opt.isNew, before, mid);
      }
    }
  }

  /** Wires loaded between the cells their ends resolve to through a complete
      `blocksMap` are attached to the cells of instances carrying those ids. */
  lemma WiresResolve(bs: seq<BlockInstance>, blocks: seq<Block>, blocksMap: map<Id, Id>, from: map<Id, nat>,
                     ws: seq<WireInstance>, wires: seq<Wire>)
    requires Tracks(IdsOf(bs), |bs|, blocks, blocksMap, from)
    requires |wires| == |ws|
    requires forall k :: 0 <= k < |ws| ==> ws[k].source.block in blocksMap && ws[k].target.block in blocksMap
    requires forall k :: 0 <= k < |ws| ==>
               wires[k] == LoadWire(ws[k], blocksMap[ws[k].source.block], blocksMap[ws[k].target.block], wires[k].id)
    ensures forall k :: 0 <= k < |ws| ==> WireResolved(wires[k], ws[k], bs, blocks)
  {
    forall k | 0 <= k < |ws| ensures WireResolved(wires[k], ws[k], bs, blocks) {
      var i, j := from[ws[k].source.block], from[ws[k].target.block];
      assert IdsOf(bs)[i] == bs[i].id && IdsOf(bs)[j] == bs[j].id;
    }
  }

  /** The wires loop of `graphToCells` once the blocks are loaded: every wire
      resolves to the cells of the instances `blocksMap` was built from. */
  method ResolveWires(ws: array<WireInstance>, blocksMap: map<Id, Id>, opt: Options, ids: IdSupply,
                      ghost bs: seq<BlockInstance>, ghost blocks: seq<Block>, ghost from: map<Id, nat>,
                      pushed: seq<Cell>)
    returns (wires: seq<Wire>, cells: seq<Cell>)
    requires ids.Valid() && Tracks(IdsOf(bs), |bs|, blocks, blocksMap, from)
    requires forall k :: 0 <= k < ws.Length ==> ws[k].source.block in blocksMap && ws[k].target.block in blocksMap
    modifies ws, ids
    ensures ids.Valid() && old(ids.used) <= ids.used
    ensures forall k :: 0 <= k < ws.Length ==> ws[k] == ShiftedInstance(old(ws[k]), opt.offset)
    ensures |wires| == ws.Length
    ensures forall k :: 0 <= k < ws.Length ==> WireResolved(wires[k], ws[k], bs, blocks)
    ensures forall k :: 0 <= k < ws.Length ==> wires[k].id !in old(ids.used) && wires[k].id in ids.used
    ensures forall i, j :: 0 <= i < j < |wires| ==> wires[i].id != wires[j].id
    ensures |cells| == |pushed| + ws.Length
    ensures forall k :: 0 <= k < |pushed| ==> cells[k] == pushed[k]
    ensures forall k :: 0 <= k < ws.Length ==> cells[|pushed| + k] == WireCell(wires[k])
  {
    wires, cells := LoadWires(ws, blocksMap, opt, ids, pushed);
    WiresResolve(bs, blocks, blocksMap, from, ws[..], wires);
  }

  /** `graphToCells(graph, opt)`: the block cells, in design order, followed by
      the wire cells. Every wire is attached at both ends to a block cell of the
      result: under `new`, to the clone of the block it named. Every id handed
      out is fresh, and under `new` no block and wire share one. */
  method GraphToCells(bs: array<BlockInstance>, ws: array<WireInstance>, opt: Options,
                      deps: map<string, Dependency>, ids: IdSupply)
    returns (cells: seq<Cell>, blocks: seq<Block>, wires: seq<Wire>)
    requires ids.Valid()
    requires forall k :: 0 <= k < bs.Length ==> Known(bs[k].blockType, deps)
    requires forall k :: 0 <= k < ws.Length ==>
               ws[k].source.block in InstanceIds(bs[..]) && ws[k].target.block in InstanceIds(bs[..])
    modifies bs, ws, ids
    ensures ids.Valid() && old(ids.used) <= ids.used
    ensures BlocksDone(old(bs[..]), bs[..], bs.Length, blocks, opt, deps, old(ids.used), ids.used)
    ensures forall k :: 0 <= k < ws.Length ==> ws[k] == ShiftedInstance(old(ws[k]), opt.offset)
    ensures |wires| == ws.Length
    ensures forall k :: 0 <= k < ws.Length ==> WireResolved(wires[k], ws[k], bs[..], blocks)
    ensures forall k :: 0 <= k < ws.Length ==> wires[k].id !in old(ids.used) && wires[k].id in ids.used
    ensures forall i, j :: 0 <= i < j < |wires| ==> wires[i].id != wires[j].id
    ensures opt.isNew ==> forall i, j :: 0 <= i < |blocks| && 0 <= j < |wires| ==> blocks[i].id != wires[j].id
    ensures |cells| == bs.Length + ws.Length
    ensures forall k :: 0 <= k < bs.Length ==> cells[k] == BlockCell(blocks[k])
    ensures forall k :: 0 <= k < ws.Length ==> cells[bs.Length + k] == WireCell(wires[k])
  {
    var blocksMap;
    ghost var from;
    blocks, cells, blocksMap, from := LoadBlocks(bs, opt, deps, ids);
    ghost var mid := ids.used;
    EndsKnown(old(bs[..]), bs[..], blocks, blocksMap, from, ws[..], opt, deps, old(ids.used), ids.used);
    wires, cells := ResolveWires(ws, blocksMap, opt, ids, bs[..], blocks, from, cells);
    CellIdsApart(old(bs[..]), bs[..], blocks, wires, opt, deps, old(ids.used), mid, ids.used);
    BlocksDoneGrows(old(bs[..]), bs[..], bs.Length, blocks, opt, deps, old(ids.used), mid, ids.used);
  }

  /** A coordinate of `graphOrigin`: `Infinity` until a block is seen. */
  datatype Bound = Infinity | Finite(v: int)

  /** `b` is a lower bound of `v`. */
  predicate AtMost(b: Bound, v: int)
  {
    b.Finite? && b.v <= v
  }

  /** `if (position.x < origin.x) origin.x = position.x`. */
  function Lowered(b: Bound, v: int): Bound
  {
    if b.Infinity? || v < b.v then Finite(v) else b
  }

  /** `graphOrigin(graph)`: one pass over the blocks, lowering each coordinate
      of the origin to the block's position when that is smaller. */
  function GraphOrigin(bs: seq<BlockInstance>): (Bound, Bound)
  {
    if bs == [] then (Infinity, Infinity)
    else
      var o := GraphOrigin(bs[..|bs| - 1]);
      var p := bs[|bs| - 1].position;
      (Lowered(o.0, p.x), Lowered(o.1, p.y))
  }

  /** The origin is the component-wise minimum of the block positions:
      `(Infinity, Infinity)` for a design without blocks, otherwise a lower
      bound of every position attained by some block in each coordinate. */
  lemma {:induction false} OriginIsMinimum(bs: seq<BlockInstance>)
    ensures bs == [] ==> GraphOrigin(bs) == (Infinity, Infinity)
    ensures forall k :: 0 <= k < |bs| ==>
              AtMost(GraphOrigin(bs).0, bs[k].position.x) && AtMost(GraphOrigin(bs).1, bs[k].position.y)
    ensures bs != [] ==> exists k :: 0 <= k < |bs| && GraphOrigin(bs).0 == Finite(bs[k].position.x)
    ensures bs != [] ==> exists k :: 0 <= k < |bs| && GraphOrigin(bs).1 == Finite(bs[k].position.y)
  {
    if bs != [] {
      var n := |bs| - 1;
      OriginIsMinimum(bs[..n]);
      assert forall k :: 0 <= k < n ==> bs[..n][k] == bs[k];
      var o := GraphOrigin(bs[..n]);
      if n > 0 {
        var i :| 0 <= i < n && o.0 == Finite(bs[..n][i].position.x);
        var j :| 0 <= j < n && o.1 == Finite(bs[..n][j].position.y);
        var i' := if bs[n].position.x < o.0.v then n else i;
        var j' := if bs[n].position.y < o.1.v then n else j;
        assert GraphOrigin(bs).0 == Finite(bs[i'].position.x);
        assert GraphOrigin(bs).1 == Finite(bs[j'].position.y);
      } else {
        assert GraphOrigin(bs) == (Finite(bs[0].position.x), Finite(bs[0].position.y));
      }
    }
  }

  function ShiftBound(b: Bound, d: int): Bound
  {
    if b.Infinity? then b else Finite(b.v + d)
  }

  /** The design with every block moved by `offset`. */
  function MovedInstances(bs: seq<BlockInstance>, offset: Point): seq<BlockInstance>
  {
    seq(|bs|, k requires 0 <= k < |bs| => bs[k].(position := Translate(bs[k].position, offset)))
  }

  /** Moving every block by `offset` moves the origin by `offset`: a design
      pasted with the offset `appendDesign` computes has its origin there. */
  lemma {:induction false} OriginMoves(bs: seq<BlockInstance>, offset: Point)
    ensures GraphOrigin(MovedInstances(bs, offset))
         == (ShiftBound(GraphOrigin(bs).0, offset.x), ShiftBound(GraphOrigin(bs).1, offset.y))
  {
    if bs != [] {
      var n := |bs| - 1;
      var m := MovedInstances(bs, offset);
      OriginMoves(bs[..n], offset);
      assert m[..n] == MovedInstances(bs[..n], offset);
    }
  }

  /** The dependency merge of `appendDesign`. The first writer wins: registered
      definitions never change, every incoming type becomes registered, and
      nothing else is added. */
  function Merged(registry: map<string, Dependency>, incoming: map<string, Dependency>): (r: map<string, Dependency>)
    ensures r.Keys == registry.Keys + incoming.Keys
    ensures forall t :: t in registry ==> r[t] == registry[t]
    ensures forall t :: t in incoming && t !in registry ==> r[t] == incoming[t]
  {
    map t | t in registry.Keys + incoming.Keys :: if t in registry then registry[t] else incoming[t]
  }

  /** Merging the same dependencies twice changes nothing the second time. */
  lemma MergedIdempotent(registry: map<string, Dependency>, incoming: map<string, Dependency>)
    ensures Merged(Merged(registry, incoming), incoming) == Merged(registry, incoming)
  {
  }

  /** After the merge, every type that was known, and every incoming type, can
      be loaded. */
  lemma MergedKnown(registry: map<string, Dependency>, incoming: map<string, Dependency>, t: string)
    requires Known(t, registry) || t in incoming
    ensures Known(t, Merged(registry, incoming))
  {
  }

  /** `common.allDependencies`. */
  class Registry {
    var deps: map<string, Dependency>

    constructor (initial: map<string, Dependency>)
      ensures deps == initial
    {
      deps := initial;
    }

    /** The merge loop: `for (type in dependencies) if (!(type in all)) all[type] = dependencies[type]`. */
    method Merge(incoming: map<string, Dependency>)
      modifies this
      ensures deps == Merged(old(deps), incoming)
    {
      var rest := incoming.Keys;
      while rest != {}
        invariant rest <= incoming.Keys
        invariant deps == Merged(old(deps), map t | t in incoming && t !in rest :: incoming[t])
        decreases rest
      {
        var t :| t in rest;
        if t !in deps {
          deps := deps[t := incoming[t]];
        }
        rest := rest - {t};
      }
      assert (map t | t in incoming && t !in rest :: incoming[t]) == incoming;
    }
  }
}
