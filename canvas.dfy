/** The graph service's mutable state: the blocks and wires of the JointJS graph,
    the selection collection and the flag of a block being placed. The methods are
    the graph event handlers, `updatePortDefault`, `step` and the selection
    operations, each stated against the value-level definitions beside it. */
module Canvas {
  import opened Cells
  import opened PortDefaults

  /** `w` is attached (by either end) to one of `cells`, as `getConnectedLinks`
      finds it. */
  predicate Touches(w: Wire, cells: set<Id>)
  {
    (w.source.Some? && w.source.value.block in cells) || (w.target.Some? && w.target.value.block in cells)
  }

  /** The blocks after the ones in `sel` moved by `offset`. */
  function Moved(blocks: map<Id, Block>, sel: set<Id>, offset: Point): map<Id, Block>
  {
    map id | id in blocks :: if id in sel then blocks[id].(position := Translate(blocks[id].position, offset)) else blocks[id]
  }

  /** The wires after every wire attached to `sel` had its vertices moved by `offset`. */
  function Dragged(links: map<Id, Wire>, sel: set<Id>, offset: Point): map<Id, Wire>
  {
    map id | id in links :: if Touches(links[id], sel) then links[id].(vertices := Shifted(links[id].vertices, offset)) else links[id]
  }

  /** Moving the same selection back by the negated offset undoes a step. */
  lemma StepUndone(blocks: map<Id, Block>, links: map<Id, Wire>, sel: set<Id>, offset: Point)
    ensures Moved(Moved(blocks, sel, offset), sel, Negate(offset)) == blocks
    ensures Dragged(Dragged(links, sel, offset), sel, Negate(offset)) == links
  {
    var there := Dragged(links, sel, offset);
    var back := Dragged(there, sel, Negate(offset));
    forall id | id in links ensures back[id] == links[id] {
      if Touches(links[id], sel) {
        ShiftedBack(links[id].vertices, offset);
      }
    }
    assert back == links;
    assert Moved(Moved(blocks, sel, offset), sel, Negate(offset)) == blocks;
  }

  /** The wires whose vertices are in `done` moved by `offset`, the others as they were. */
  function ShiftOnly(links: map<Id, Wire>, done: set<Id>, offset: Point): map<Id, Wire>
  {
    map id | id in links :: if id in done then links[id].(vertices := Shifted(links[id].vertices, offset)) else links[id]
  }

  /** The wires attached to any of `cells`. */
  function Attached(links: map<Id, Wire>, cells: set<Id>): set<Id>
  {
    set id | id in links && Touches(links[id], cells)
  }

  /** Moving one more block, not moved before, is one map update. */
  lemma MovedOneMore(blocks: map<Id, Block>, sel: set<Id>, cell: Id, offset: Point)
    requires cell in blocks && cell !in sel
    ensures Moved(blocks, sel + {cell}, offset)
         == Moved(blocks, sel, offset)[cell := blocks[cell].(position := Translate(blocks[cell].position, offset))]
  {
  }

  /** Shifting one more wire, not shifted before, is one map update. */
  lemma ShiftOnlyOneMore(links: map<Id, Wire>, done: set<Id>, w: Id, offset: Point)
    requires w in links && w !in done
    ensures ShiftOnly(links, done + {w}, offset)
         == ShiftOnly(links, done, offset)[w := links[w].(vertices := Shifted(links[w].vertices, offset))]
  {
  }

  /** The wires that remain once those in `gone` are removed. */
  function Kept(links: map<Id, Wire>, gone: set<Id>): map<Id, Wire>
  {
    map id | id in links && id !in gone :: links[id]
  }

  /** The blocks after the `remove` handler ran for every wire in `gone`. */
  function Freed(blocks: map<Id, Block>, links: map<Id, Wire>, gone: set<Id>): map<Id, Block>
  {
    map b | b in blocks :: WithPorts(blocks[b], SetApply(blocks[b].data.inPorts, FreedNames(links, gone, b), true))
  }

  /** Removing no wire frees no port. */
  lemma FreedNothing(blocks: map<Id, Block>, links: map<Id, Wire>)
    ensures Freed(blocks, links, {}) == blocks
  {
    forall b | b in blocks ensures Freed(blocks, links, {})[b] == blocks[b] {
      assert FreedNames(links, {}, b) == {};
      SetApplyShape(blocks[b].data.inPorts, {}, true);
      assert SetApply(blocks[b].data.inPorts, {}, true) == blocks[b].data.inPorts;
    }
  }

  /** The `remove` handler of one more wire extends the freed set by that wire. */
  lemma FreedOneMore(blocks: map<Id, Block>, links: map<Id, Wire>, gone: set<Id>, id: Id)
    requires id in links
    ensures PortDefaultSet(Freed(blocks, links, gone), FreedPort(links[id]), true) == Freed(blocks, links, gone + {id})
  {
    var before := Freed(blocks, links, gone);
    var after := Freed(blocks, links, gone + {id});
    var f := FreedPort(links[id]);
    forall b | b in blocks ensures PortDefaultSet(before, f, true)[b] == after[b] {
      var ports := blocks[b].data.inPorts;
      if f.Some? && f.value.block == b {
        assert FreedNames(links, gone + {id}, b) == FreedNames(links, gone, b) + {f.value.port};
        SetApplyTwice(ports, FreedNames(links, gone, b), {f.value.port}, true);
      } else {
        assert FreedNames(links, gone + {id}, b) == FreedNames(links, gone, b);
      }
    }
  }

  /** The graph after `removeSelected` on the blocks `sel`: the blocks not
      selected, each with the ports freed by the removed wires, and the wires
      attached to no selected block. */
  function RemovedSelection(blocks: map<Id, Block>, links: map<Id, Wire>, sel: set<Id>): (map<Id, Block>, map<Id, Wire>)
  {
    var freed := Freed(blocks, links, Attached(links, sel));
    (map b | b in freed && b !in sel :: freed[b], Kept(links, Attached(links, sel)))
  }

  /** After `removeSelected` the selected blocks are gone, every other block
      keeps everything but its port defaults, and the wires that remain are
      exactly the unchanged ones attached to no selected block. */
  lemma RemovedSelectionShape(blocks: map<Id, Block>, links: map<Id, Wire>, sel: set<Id>)
    ensures RemovedSelection(blocks, links, sel).0.Keys == blocks.Keys - sel
    ensures forall b :: b in RemovedSelection(blocks, links, sel).0 ==>
              RemovedSelection(blocks, links, sel).0[b] == WithPorts(blocks[b], RemovedSelection(blocks, links, sel).0[b].data.inPorts)
    ensures RemovedSelection(blocks, links, sel).1.Keys == set id | id in links && !Touches(links[id], sel)
    ensures forall id :: id in RemovedSelection(blocks, links, sel).1 ==> RemovedSelection(blocks, links, sel).1[id] == links[id]
  {
  }

  /** On a graph whose every wire is attached at both ends, `removeSelected`
      keeps each port's default flag accurate: a port that a removed wire fed is
      fed by no remaining wire, and every other port keeps its feeders. */
  lemma {:induction false} RemovedSelectionAccurate(blocks: map<Id, Block>, links: map<Id, Wire>, sel: set<Id>)
    requires Accurate(blocks, links)
    requires forall id :: id in links ==> links[id].source.Some? && links[id].target.Some?
    ensures Accurate(RemovedSelection(blocks, links, sel).0, RemovedSelection(blocks, links, sel).1)
  {
    var gone := Attached(links, sel);
    var after := RemovedSelection(blocks, links, sel);
    var nb, nl := after.0, after.1;
    forall b, i | b in nb && 0 <= i < |nb[b].data.inPorts| && nb[b].data.inPorts[i].default.Some?
      && FirstOfName(nb[b].data.inPorts, i)
      ensures nb[b].data.inPorts[i].default.value.apply == !Fed(nl, Endpoint(b, nb[b].data.inPorts[i].name))
    {
      var ports := blocks[b].data.inPorts;
      var names := FreedNames(links, gone, b);
      SetApplyShape(ports, names, true);
      var e := Endpoint(b, ports[i].name);
      assert nb[b].data.inPorts[i].name == ports[i].name;
      if ports[i].name in names {
        var id :| id in links && id in gone && FreedPort(links[id]).Some? && FreedPort(links[id]).value.block == b
                  && FreedPort(links[id]).value.port == ports[i].name;
        assert links[id].target == Some(e);
      } else {
        if Fed(links, e) {
          var x :| x in links && links[x].source.Some? && links[x].target == Some(e);
          assert x !in gone;
          assert x in nl && nl[x] == links[x];
        }
      }
    }
  }

  /** The names of the ports of block `b` that the removal of the wires in `gone`
      frees. */
  function FreedNames(links: map<Id, Wire>, gone: set<Id>, b: Id): set<string>
  {
    set id | id in links && id in gone && FreedPort(links[id]).Some? && FreedPort(links[id]).value.block == b
      :: FreedPort(links[id]).value.port
  }

  /** `selection.without(cell)`: the sequence without `x`. The contract states
      which members remain, not their order. */
  function Without(s: seq<Id>, x: Id): (r: seq<Id>)
    ensures forall y :: y in r <==> y in s && y != x
    ensures |r| <= |s|
    ensures Distinct(s) ==> Distinct(r)
    ensures x !in s ==> r == s
  {
    if s == [] then []
    else if s[0] == x then Without(s[1..], x)
    else
      var rest := Without(s[1..], x);
      assert Distinct(s) ==> s[0] !in s[1..];
      [s[0]] + rest
  }

  function Members(s: seq<Id>): set<Id>
  {
    set x | x in s
  }

  predicate Distinct(s: seq<Id>)
  {
    forall i, j :: 0 <= i < j < |s| ==> s[i] != s[j]
  }

  class Canvas {
    var blocks: map<Id, Block>
    var links: map<Id, Wire>
    var selection: seq<Id>
    var addingDraggableBlock: bool
    /** What the last copy or cut put on the clipboard. */
    var clipboard: seq<Id>

    /** Cells are stored under their own ids, and the selection is a duplicate-free
        list of blocks of the graph. */
    ghost predicate Valid()
      reads this
    {
      && (forall id :: id in blocks ==> blocks[id].id == id)
      && (forall id :: id in links ==> links[id].id == id)
      && Distinct(selection)
      && (forall id :: id in selection ==> id in blocks)
    }

    predicate HasSelection()
      reads this
    {
      |selection| > 0
    }

    constructor ()
      ensures Valid()
      ensures blocks == map[] && links == map[] && selection == [] && !addingDraggableBlock && clipboard == []
    {
      blocks, links, selection, addingDraggableBlock, clipboard := map[], map[], [], false, [];
    }

    /** `updatePortDefault(target, value)`: the first input port of the target
        block named like the target port and having a default gets
        `apply := value`; nothing else changes. */
    method UpdatePortDefault(target: Option<Endpoint>, value: bool)
      modifies this
      ensures blocks == PortDefaultSet(old(blocks), target, value)
      ensures links == old(links) && selection == old(selection)
      ensures addingDraggableBlock == old(addingDraggableBlock) && clipboard == old(clipboard)
      ensures old(Valid()) ==> Valid()
      ensures target.Some? && target.value.block in blocks ==>
                forall i :: 0 <= i < |blocks[target.value.block].data.inPorts| ==>
                  var before := old(blocks)[target.value.block].data.inPorts;
                  var after := blocks[target.value.block].data.inPorts;
                  if NamedWithDefault(before[i], target.value.port) && FirstOfName(before, i)
                  then after[i].default.value.apply == value
                  else after[i] == before[i]
    {
      if target.Some? && target.value.block in blocks {
        var id := target.value.block;
        var block := blocks[id];
        var ports := block.data.inPorts;
        var i := 0;
        while i < |ports|
          invariant 0 <= i <= |ports|
          invariant forall j :: 0 <= j < i ==> !NamedWithDefault(ports[j], target.value.port)
        {
          if NamedWithDefault(ports[i], target.value.port) {
            break;
          }
          i := i + 1;
        }
        if i < |ports| {
          assert FirstOfName(ports, i);
          var updated := ports[i := WithApply(ports[i], value)];
          SetApplyShape(ports, {target.value.port}, value);
          assert updated == SetApply(ports, {target.value.port}, value);
          blocks := blocks[id := WithPorts(block, updated)];
        } else {
          SetApplyShape(ports, {target.value.port}, value);
          assert ports == SetApply(ports, {target.value.port}, value);
          assert block == WithPorts(block, ports);
        }
      }
    }

    /** Adding a block to the graph. */
    method AddBlock(b: Block)
      requires Valid() && b.id !in blocks
      modifies this
      ensures Valid()
      ensures blocks == old(blocks)[b.id := b]
      ensures links == old(links) && selection == old(selection) && clipboard == old(clipboard)
      ensures addingDraggableBlock == old(addingDraggableBlock)
    {
      blocks := blocks[b.id := b];
    }

    /** `selection.add(cell)` for a block not yet selected. */
    method Select(id: Id)
      requires Valid() && id in blocks && id !in selection
      modifies this
      ensures Valid()
      ensures selection == old(selection) + [id]
      ensures blocks == old(blocks) && links == old(links) && clipboard == old(clipboard)
      ensures addingDraggableBlock == old(addingDraggableBlock)
    {
      selection := selection + [id];
    }

    /** `selectionView.cancelSelection()`: the selection becomes empty. */
    method CancelSelection()
      requires Valid()
      modifies this
      ensures Valid() && selection == []
      ensures blocks == old(blocks) && links == old(links) && clipboard == old(clipboard)
      ensures addingDraggableBlock == old(addingDraggableBlock)
    {
      selection := [];
    }

    /** The `add change:source change:target` handler, run on wire `id`: a wire
        with a source and a target remembers the target and clears its port's
        default; a wire with a source and no target frees its last target. */
    method OnLinkChanged(id: Id)
      requires id in links
      modifies this
      ensures blocks == OnLinkChange(old(blocks), old(links)[id]).0
      ensures links == old(links)[id := OnLinkChange(old(blocks), old(links)[id]).1]
      ensures old(Valid()) ==> Valid()
      ensures selection == old(selection) && addingDraggableBlock == old(addingDraggableBlock)
      ensures clipboard == old(clipboard)
    {
      var w := links[id];
      if w.source.Some? {
        if w.target.Some? {
          links := links[id := w.(lastTarget := w.target)];
          UpdatePortDefault(w.target, false);
        } else {
          UpdatePortDefault(w.lastTarget, true);
        }
      }
    }

    /** Adding a wire to the graph fires `add`. A new wire from a source into a
        free port keeps the default flags accurate. */
    method AddLink(w: Wire)
      requires Valid() && w.id !in links
      modifies this
      ensures Valid()
      ensures blocks == OnLinkChange(old(blocks), w).0 && blocks.Keys == old(blocks).Keys
      ensures links == old(links)[w.id := OnLinkChange(old(blocks), w).1]
      ensures selection == old(selection) && clipboard == old(clipboard)
      ensures addingDraggableBlock == old(addingDraggableBlock)
      ensures (old(Accurate(blocks, links)) && w.source.Some? && w.target.Some? && !old(Fed(links, w.target.value)))
                ==> Accurate(blocks, links)
    {
      if Accurate(blocks, links) && w.source.Some? && w.target.Some? && !Fed(links, w.target.value) {
        ConnectKeepsAccurate(blocks, links, w);
      }
      links := links[w.id := w];
      OnLinkChanged(w.id);
    }

    /** Setting the target end of wire `id` fires `change:target` when the value
        changes. Dragging it off its port, or dropping it on a free port, keeps
        the default flags accurate. */
    method SetTarget(id: Id, target: Option<Endpoint>)
      requires Valid() && id in links
      modifies this
      ensures Valid()
      ensures old(links)[id].target == target ==> blocks == old(blocks) && links == old(links)
      ensures old(links)[id].target != target ==>
                var w := old(links)[id].(target := target);
                blocks == OnLinkChange(old(blocks), w).0 && links == old(links)[id := OnLinkChange(old(blocks), w).1]
      ensures selection == old(selection) && clipboard == old(clipboard)
      ensures addingDraggableBlock == old(addingDraggableBlock)
      ensures (old(Accurate(blocks, links)) && old(links)[id].source.Some? && old(links)[id].target.Some?
                && target.None?) ==> Accurate(blocks, links)
      ensures (old(Accurate(blocks, links)) && old(links)[id].source.Some? && old(links)[id].target.None?
                && target.Some? && !old(Fed(links, target.value))) ==> Accurate(blocks, links)
    {
      var w := links[id];
      if w.target != target {
        if Accurate(blocks, links) && w.source.Some? && w.target.Some? && target.None? {
          DetachKeepsAccurate(blocks, links, id);
        }
        if Accurate(blocks, links) && w.source.Some? && w.target.None? && target.Some? && !Fed(links, target.value) {
          AttachKeepsAccurate(blocks, links, id, target.value);
        }
        links := links[id := w.(target := target)];
        OnLinkChanged(id);
      }
    }

    /** Setting the source end of wire `id` fires `change:source` when the value
        changes. */
    method SetSource(id: Id, source: Option<Endpoint>)
      requires Valid() && id in links
      modifies this
      ensures Valid()
      ensures old(links)[id].source == source ==> blocks == old(blocks) && links == old(links)
      ensures old(links)[id].source != source ==>
                var w := old(links)[id].(source := source);
                blocks == OnLinkChange(old(blocks), w).0 && links == old(links)[id := OnLinkChange(old(blocks), w).1]
      ensures selection == old(selection) && clipboard == old(clipboard)
      ensures addingDraggableBlock == old(addingDraggableBlock)
    {
      var w := links[id];
      if w.source != source {
        links := links[id := w.(source := source)];
        OnLinkChanged(id);
      }
    }

    /** Removing wire `id` fires `remove`: its target, or its last target when it
        dangles, gets its default back. Removing an attached wire keeps the
        default flags accurate. */
    method RemoveLink(id: Id)
      requires Valid() && id in links
      modifies this
      ensures Valid()
      ensures links == old(links) - {id}
      ensures blocks == OnLinkRemove(old(blocks), old(links)[id])
      ensures selection == old(selection) && clipboard == old(clipboard)
      ensures addingDraggableBlock == old(addingDraggableBlock)
      ensures (old(Accurate(blocks, links)) && old(links)[id].source.Some? && old(links)[id].target.Some?)
                ==> Accurate(blocks, links)
    {
      var w := links[id];
      if Accurate(blocks, links) && w.source.Some? && w.target.Some? {
        RemoveKeepsAccurate(blocks, links, id);
      }
      links := links - {id};
      UpdatePortDefault(FreedPort(w), true);
    }

    /** `step(offset)`: every selected block moves by `offset`, and every wire
        attached to a selected block has each of its vertices moved by `offset`
        exactly once, even when both its ends are selected. */
    method Step(offset: Point)
      requires Valid()
      modifies this
      ensures Valid()
      ensures blocks == Moved(old(blocks), Members(old(selection)), offset)
      ensures links == Dragged(old(links), Members(old(selection)), offset)
      ensures selection == old(selection) && clipboard == old(clipboard)
      ensures addingDraggableBlock == old(addingDraggableBlock)
    {
      var processed: set<Id> := {};
      var i := 0;
      while i < |selection|
        invariant 0 <= i <= |selection|
        invariant Valid()
        invariant selection == old(selection) && clipboard == old(clipboard)
        invariant addingDraggableBlock == old(addingDraggableBlock)
        invariant blocks == Moved(old(blocks), Members(selection[..i]), offset)
        invariant processed == Attached(old(links), Members(selection[..i]))
        invariant links == ShiftOnly(old(links), processed, offset)
        decreases |selection| - i
      {
        var cell := selection[i];
        ghost var sofar := Members(selection[..i]);
        assert Members(selection[..i + 1]) == sofar + {cell} by {
          assert selection[..i + 1] == selection[..i] + [cell];
        }
        assert cell !in sofar by {
          forall k | 0 <= k < i ensures selection[k] != cell { }
        }
        processed := MoveOne(cell, offset, processed, old(blocks), old(links), sofar);
        i := i + 1;
      }
      assert selection[..i] == selection;
      assert links == Dragged(old(links), Members(selection), offset);
    }

    /** One turn of the outer loop of `step`: block `cell`, not moved yet, is
        moved, then the wires attached to it are dragged. */
    method MoveOne(cell: Id, offset: Point, processed: set<Id>,
                   ghost baseBlocks: map<Id, Block>, ghost baseLinks: map<Id, Wire>, ghost sofar: set<Id>)
      returns (done: set<Id>)
      requires Valid() && cell in baseBlocks && cell !in sofar
      requires blocks == Moved(baseBlocks, sofar, offset)
      requires processed == Attached(baseLinks, sofar) && links == ShiftOnly(baseLinks, processed, offset)
      modifies this
      ensures Valid()
      ensures blocks == Moved(baseBlocks, sofar + {cell}, offset)
      ensures done == Attached(baseLinks, sofar + {cell}) && links == ShiftOnly(baseLinks, done, offset)
      ensures selection == old(selection) && clipboard == old(clipboard)
      ensures addingDraggableBlock == old(addingDraggableBlock)
    {
      MovedOneMore(baseBlocks, sofar, cell, offset);
      blocks := blocks[cell := blocks[cell].(position := Translate(blocks[cell].position, offset))];
      done := DragAttached(cell, offset, processed, baseLinks);
      assert Attached(baseLinks, sofar + {cell}) == Attached(baseLinks, sofar) + Attached(baseLinks, {cell});
    }

    /** The inner loop of `step` for block `cell`: each wire attached to it that
        `processed` does not hold yet has its vertices moved, and is recorded. */
    method DragAttached(cell: Id, offset: Point, processed: set<Id>, ghost base: map<Id, Wire>)
      returns (done: set<Id>)
      requires links == ShiftOnly(base, processed, offset)
      modifies this
      ensures done == processed + Attached(base, {cell})
      ensures links == ShiftOnly(base, done, offset)
      ensures blocks == old(blocks) && selection == old(selection) && clipboard == old(clipboard)
      ensures addingDraggableBlock == old(addingDraggableBlock)
    {
      var connected := set id | id in links && Touches(links[id], {cell});
      assert connected == Attached(base, {cell});
      ghost var all := connected;
      done := processed;
      while connected != {}
        invariant connected <= all && all <= base.Keys
        invariant done == processed + (all - connected)
        invariant links == ShiftOnly(base, done, offset)
        invariant blocks == old(blocks) && selection == old(selection) && clipboard == old(clipboard)
        invariant addingDraggableBlock == old(addingDraggableBlock)
        decreases connected
      {
        var wid :| wid in connected;
        if wid !in done {
          ShiftOnlyOneMore(base, done, wid, offset);
          var w := links[wid];
          if |w.vertices| > 0 {
            var moved := ShiftVertices(w.vertices, offset);
            links := links[wid := w.(vertices := moved)];
          } else {
            assert Shifted(w.vertices, offset) == w.vertices;
            assert links == ShiftOnly(base, done + {wid}, offset);
          }
          done := done + {wid};
        }
        connected := connected - {wid};
      }
    }

    /** `selectAll`: the selection is cleared and then holds every block. */
    method SelectAll()
      requires Valid()
      modifies this
      ensures Valid()
      ensures Members(selection) == blocks.Keys
      ensures blocks == old(blocks) && links == old(links) && clipboard == old(clipboard)
      ensures addingDraggableBlock == old(addingDraggableBlock)
    {
      selection := [];
      var rest := blocks.Keys;
      while rest != {}
        invariant Distinct(selection)
        invariant blocks == old(blocks) && links == old(links) && clipboard == old(clipboard)
        invariant addingDraggableBlock == old(addingDraggableBlock)
        invariant rest <= blocks.Keys
        invariant Members(selection) == blocks.Keys - rest
        invariant forall id :: id in selection ==> id in blocks
        decreases rest
      {
        var id :| id in rest;
        assert Members(selection + [id]) == Members(selection) + {id};
        selection := selection + [id];
        rest := rest - {id};
      }
    }

    /** Shift-click on a selection box drops that block from the selection; while a
        new block is being placed, the click instead ends the placement and clears
        the selection. */
    method SelectionBoxClick(id: Id, shift: bool)
      requires Valid()
      modifies this
      ensures Valid()
      ensures old(addingDraggableBlock) ==> !addingDraggableBlock && selection == []
      ensures !old(addingDraggableBlock) ==>
                addingDraggableBlock == false && selection == (if shift then Without(old(selection), id) else old(selection))
      ensures blocks == old(blocks) && links == old(links) && clipboard == old(clipboard)
    {
      if addingDraggableBlock {
        addingDraggableBlock := false;
        if HasSelection() {
          selection := [];
        }
      } else if shift {
        selection := Without(selection, id);
      }
    }

    /** `removeSelected`: with a non-empty selection, the selected blocks leave
        the graph with every wire attached to them; the `remove` handler of each
        removed wire frees the port it fed, and the selection is cancelled. */
    method RemoveSelected()
      requires Valid()
      modifies this
      ensures Valid()
      ensures old(selection) == [] ==> blocks == old(blocks) && links == old(links) && selection == []
      ensures old(selection) != [] ==>
                (blocks, links) == RemovedSelection(old(blocks), old(links), Members(old(selection))) && selection == []
      ensures clipboard == old(clipboard) && addingDraggableBlock == old(addingDraggableBlock)
    {
      if HasSelection() {
        var sel := Members(selection);
        var attached := set id | id in links && Touches(links[id], sel);
        RemoveLinks(attached);
        RemovedSelectionShape(old(blocks), old(links), sel);
        blocks := map b | b in blocks && b !in sel :: blocks[b];
        selection := [];
      }
    }

    /** Removes the wires `gone` one by one, each firing the `remove` handler. */
    method RemoveLinks(gone: set<Id>)
      requires gone <= links.Keys
      modifies this
      ensures links == Kept(old(links), gone)
      ensures blocks == Freed(old(blocks), old(links), gone)
      ensures selection == old(selection) && clipboard == old(clipboard)
      ensures addingDraggableBlock == old(addingDraggableBlock)
    {
      var doomed := gone;
      ghost var removed: set<Id> := {};
      FreedNothing(blocks, links);
      while doomed != {}
        invariant doomed <= gone && removed == gone - doomed
        invariant selection == old(selection) && clipboard == old(clipboard)
        invariant addingDraggableBlock == old(addingDraggableBlock)
        invariant links == Kept(old(links), removed)
        invariant blocks == Freed(old(blocks), old(links), removed)
        decreases doomed
      {
        var id :| id in doomed;
        var w := links[id];
        FreedOneMore(old(blocks), old(links), removed, id);
        links := links - {id};
        UpdatePortDefault(FreedPort(w), true);
        removed := removed + {id};
        doomed := doomed - {id};
      }
      assert removed == gone;
    }

    /** `copySelected`: only a non-empty selection reaches the clipboard. */
    method CopySelected()
      requires Valid()
      modifies this
      ensures Valid()
      ensures clipboard == if old(selection) != [] then old(selection) else old(clipboard)
      ensures blocks == old(blocks) && links == old(links) && selection == old(selection)
      ensures addingDraggableBlock == old(addingDraggableBlock)
    {
      if HasSelection() {
        clipboard := selection;
      }
    }

    /** `cutSelected`: a copy followed by `removeSelected`, only with a
        non-empty selection. */
    method CutSelected()
      requires Valid()
      modifies this
      ensures Valid()
      ensures old(selection) == [] ==>
                clipboard == old(clipboard) && blocks == old(blocks) && links == old(links) && selection == []
      ensures old(selection) != [] ==>
                clipboard == old(selection) && selection == []
                && (blocks, links) == RemovedSelection(old(blocks), old(links), Members(old(selection)))
      ensures addingDraggableBlock == old(addingDraggableBlock)
    {
      if HasSelection() {
        clipboard := selection;
        RemoveSelected();
      }
    }
  }
}
