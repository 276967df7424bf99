/** `appendDesign(design, dependencies)` and the `graph.addCells(cells)` it ends
    with: the pasted design's dependencies are merged into the registry, its
    cells are built with fresh ids, offset and (for another board) reset pins,
    added to the graph (each wire firing the `add` handler), and the pasted
    blocks become the selection. The offset is a parameter: its computation
    from the pointer, the pan, the zoom and the menu height is not modelled. */
module Append {
  import opened Cells
  import opened PortDefaults
  import opened Canvas
  import opened Loading

  function BlockIds(blocks: seq<Block>): set<Id>
  {
    set k | 0 <= k < |blocks| :: blocks[k].id
  }

  function WireIds(wires: seq<Wire>): set<Id>
  {
    set k | 0 <= k < |wires| :: wires[k].id
  }

  function CellId(c: Cell): Id
  {
    match c
    case BlockCell(b) => b.id
    case WireCell(w) => w.id
  }

  /** The blocks once the blocks `bs` are added one after the other. */
  function WithBlocks(blocks: map<Id, Block>, bs: seq<Block>): map<Id, Block>
  {
    if bs == [] then blocks
    else WithBlocks(blocks, bs[..|bs| - 1])[bs[|bs| - 1].id := bs[|bs| - 1]]
  }

  /** The blocks and wires once the wires `ws` are added one after the other,
      each firing the `add` handler. */
  function Linked(blocks: map<Id, Block>, links: map<Id, Wire>, ws: seq<Wire>): (map<Id, Block>, map<Id, Wire>)
  {
    if ws == [] then (blocks, links)
    else
      var g := Linked(blocks, links, ws[..|ws| - 1]);
      var w := ws[|ws| - 1];
      (OnLinkChange(g.0, w).0, g.1[w.id := OnLinkChange(g.0, w).1])
  }

  /** The blocks and wires once `graph.addCells(cells)` has added every cell in
      turn: a block as it is, a wire firing the `add` handler. */
  function Added(blocks: map<Id, Block>, links: map<Id, Wire>, cells: seq<Cell>): (map<Id, Block>, map<Id, Wire>)
  {
    if cells == [] then (blocks, links)
    else
      var g := Added(blocks, links, cells[..|cells| - 1]);
      match cells[|cells| - 1]
      case BlockCell(b) => (g.0[b.id := b], g.1)
      case WireCell(w) => (OnLinkChange(g.0, w).0, g.1[w.id := OnLinkChange(g.0, w).1])
  }

  /** Adding blocks adds exactly their ids. */
  lemma {:induction false} WithBlocksKeys(blocks: map<Id, Block>, bs: seq<Block>)
    ensures WithBlocks(blocks, bs).Keys == blocks.Keys + BlockIds(bs)
  {
    if bs != [] {
      var n := |bs| - 1;
      WithBlocksKeys(blocks, bs[..n]);
      assert BlockIds(bs) == BlockIds(bs[..n]) + {bs[n].id} by {
        forall x | x in BlockIds(bs) ensures x in BlockIds(bs[..n]) || x == bs[n].id {
          var k :| 0 <= k < |bs| && bs[k].id == x;
          if k < n { assert bs[..n][k] == bs[k]; }
        }
      }
    }
  }

  /** Adding blocks with distinct ids stores each of them and keeps every other
      block. */
  lemma {:induction false} WithBlocksShape(blocks: map<Id, Block>, bs: seq<Block>)
    requires forall i, j :: 0 <= i < j < |bs| ==> bs[i].id != bs[j].id
    ensures forall k :: 0 <= k < |bs| ==> bs[k].id in WithBlocks(blocks, bs) && WithBlocks(blocks, bs)[bs[k].id] == bs[k]
    ensures forall id :: id in blocks && id !in BlockIds(bs) ==>
              id in WithBlocks(blocks, bs) && WithBlocks(blocks, bs)[id] == blocks[id]
  {
    if bs != [] {
      var n := |bs| - 1;
      WithBlocksShape(blocks, bs[..n]);
      forall id | id in blocks && id !in BlockIds(bs)
        ensures id in WithBlocks(blocks, bs) && WithBlocks(blocks, bs)[id] == blocks[id]
      {
        forall k | 0 <= k < n ensures bs[..n][k].id != id {
          assert bs[k].id in BlockIds(bs);
        }
        assert bs[n].id in BlockIds(bs);
      }
      forall k | 0 <= k < n
        ensures bs[k].id in WithBlocks(blocks, bs) && WithBlocks(blocks, bs)[bs[k].id] == bs[k]
      {
        assert bs[..n][k] == bs[k];
      }
    }
  }

  /** Adding wires adds exactly their ids to the wires and keeps the block ids. */
  lemma {:induction false} LinkedKeys(blocks: map<Id, Block>, links: map<Id, Wire>, ws: seq<Wire>)
    ensures Linked(blocks, links, ws).0.Keys == blocks.Keys
    ensures Linked(blocks, links, ws).1.Keys == links.Keys + WireIds(ws)
  {
    if ws != [] {
      var n := |ws| - 1;
      LinkedKeys(blocks, links, ws[..n]);
      assert WireIds(ws) == WireIds(ws[..n]) + {ws[n].id} by {
        forall x | x in WireIds(ws) ensures x in WireIds(ws[..n]) || x == ws[n].id {
          var k :| 0 <= k < |ws| && ws[k].id == x;
          if k < n { assert ws[..n][k] == ws[k]; }
        }
      }
    }
  }

  /** The wires after one more attached wire is added. */
  lemma LinkedLast(blocks: map<Id, Block>, links: map<Id, Wire>, ws: seq<Wire>)
    requires ws != [] && ws[|ws| - 1].source.Some? && ws[|ws| - 1].target.Some?
    ensures Linked(blocks, links, ws).1
            == Linked(blocks, links, ws[..|ws| - 1]).1[ws[|ws| - 1].id := ws[|ws| - 1].(lastTarget := ws[|ws| - 1].target)]
  {
  }

  /** Adding wires with distinct ids, each with both ends attached, stores each
      of them with its target recorded as its last one and keeps every other
      wire. */
  lemma {:induction false} LinkedShape(blocks: map<Id, Block>, links: map<Id, Wire>, ws: seq<Wire>)
    requires forall i, j :: 0 <= i < j < |ws| ==> ws[i].id != ws[j].id
    requires forall k :: 0 <= k < |ws| ==> ws[k].source.Some? && ws[k].target.Some?
    ensures forall k :: 0 <= k < |ws| ==>
              ws[k].id in Linked(blocks, links, ws).1
              && Linked(blocks, links, ws).1[ws[k].id] == ws[k].(lastTarget := ws[k].target)
    ensures forall id :: id in links && id !in WireIds(ws) ==>
              id in Linked(blocks, links, ws).1 && Linked(blocks, links, ws).1[id] == links[id]
  {
    if ws != [] {
      var n := |ws| - 1;
      LinkedShape(blocks, links, ws[..n]);
      LinkedLast(blocks, links, ws);
      forall id | id in links && id !in WireIds(ws)
        ensures id in Linked(blocks, links, ws).1 && Linked(blocks, links, ws).1[id] == links[id]
      {
        forall k | 0 <= k < n ensures ws[..n][k].id != id {
          assert ws[k].id in WireIds(ws);
        }
        assert ws[n].id in WireIds(ws);
      }
      forall k | 0 <= k < n
        ensures ws[k].id in Linked(blocks, links, ws).1
                && Linked(blocks, links, ws).1[ws[k].id] == ws[k].(lastTarget := ws[k].target)
      {
        assert ws[..n][k] == ws[k];
      }
    }
  }

  /** Each wire has both ends attached and a fresh id, feeds a port no wire of
      `links` feeds, and no two of them share an id or a port. */
  ghost predicate FeedFreePorts(links: map<Id, Wire>, ws: seq<Wire>)
  {
    && (forall k :: 0 <= k < |ws| ==>
          ws[k].source.Some? && ws[k].target.Some? && ws[k].id !in links && !Fed(links, ws[k].target.value))
    && (forall i, j :: 0 <= i < j < |ws| ==> ws[i].id != ws[j].id && ws[i].target != ws[j].target)
  }

  /** Adding wires into free, distinct ports keeps the default flags accurate. */
  lemma {:induction false} LinkedKeepsAccurate(blocks: map<Id, Block>, links: map<Id, Wire>, ws: seq<Wire>)
    requires Accurate(blocks, links) && FeedFreePorts(links, ws)
    ensures Accurate(Linked(blocks, links, ws).0, Linked(blocks, links, ws).1)
  {
    if ws != [] {
      var n := |ws| - 1;
      var w := ws[n];
      assert FeedFreePorts(links, ws[..n]) by {
        forall k | 0 <= k < n ensures ws[..n][k] == ws[k] { }
      }
      LinkedKeepsAccurate(blocks, links, ws[..n]);
      LinkedKeys(blocks, links, ws[..n]);
      LinkedShape(blocks, links, ws[..n]);
      var g := Linked(blocks, links, ws[..n]);
      forall x | x in WireIds(ws[..n]) ensures x != w.id {
        var k :| 0 <= k < n && ws[..n][k].id == x;
        assert ws[k].id != ws[n].id;
      }
      forall id | id in g.1 && g.1[id].source.Some? ensures g.1[id].target != w.target {
        if id in WireIds(ws[..n]) {
          var k :| 0 <= k < n && ws[..n][k].id == id;
          assert g.1[id] == ws[k].(lastTarget := ws[k].target);
          assert ws[k].target != ws[n].target;
        } else {
          assert g.1[id] == links[id];
        }
      }
      ConnectKeepsAccurate(g.0, g.1, w);
    }
  }

  /** Port `e` is fed by one of the wires `ws`. */
  ghost predicate FedBy(ws: seq<Wire>, e: Endpoint)
  {
    exists k :: 0 <= k < |ws| && ws[k].source.Some? && ws[k].target == Some(e)
  }

  /** Every wire of `links` with a target ends at a block of `blocks`. */
  ghost predicate EndsAtBlocks(blocks: map<Id, Block>, links: map<Id, Wire>)
  {
    forall id :: id in links && links[id].target.Some? ==> links[id].target.value.block in blocks
  }

  /** On every block of `bs`, the flag of each port that decides its name says
      "the default applies" exactly when none of the wires `ws` feeds it: what a
      design copied from a graph with accurate flags carries in its data. */
  ghost predicate FlagsMatch(bs: seq<Block>, ws: seq<Wire>)
  {
    forall k, i :: 0 <= k < |bs| && 0 <= i < |bs[k].data.inPorts| && bs[k].data.inPorts[i].default.Some?
      && FirstOfName(bs[k].data.inPorts, i)
      ==> bs[k].data.inPorts[i].default.value.apply == !FedBy(ws, Endpoint(bs[k].id, bs[k].data.inPorts[i].name))
  }

  /** The blocks after one more attached wire is added. */
  lemma LinkedLastBlocks(blocks: map<Id, Block>, links: map<Id, Wire>, ws: seq<Wire>)
    requires ws != [] && ws[|ws| - 1].source.Some? && ws[|ws| - 1].target.Some?
    ensures Linked(blocks, links, ws).0
            == PortDefaultSet(Linked(blocks, links, ws[..|ws| - 1]).0, ws[|ws| - 1].target, false)
  {
  }

  /** When the flags already agree with wires `links` in which every port the
      added wires reach is fed, adding those wires keeps them in agreement: each
      `add` handler writes a flag that already says "fed". */
  lemma {:induction false} SettleFlags(blocks: map<Id, Block>, links: map<Id, Wire>, all: map<Id, Wire>, ws: seq<Wire>)
    requires DefaultsAccurate(blocks, all)
    requires forall k :: 0 <= k < |ws| ==>
               ws[k].source.Some? && ws[k].target.Some? && Fed(all, ws[k].target.value)
    ensures DefaultsAccurate(Linked(blocks, links, ws).0, all)
  {
    if ws != [] {
      var n := |ws| - 1;
      assert forall k :: 0 <= k < n ==> ws[..n][k] == ws[k];
      SettleFlags(blocks, links, all, ws[..n]);
      LinkedLastBlocks(blocks, links, ws);
      SetKeepsAccurate(Linked(blocks, links, ws[..n]).0, all, all, ws[n].target.value, false);
    }
  }

  /** After adding wires with fresh, distinct ids, a port is fed exactly when an
      old wire or one of the added wires feeds it. */
  lemma FedAfterLinked(blocks: map<Id, Block>, links: map<Id, Wire>, ws: seq<Wire>)
    requires FeedFreePorts(links, ws)
    ensures forall e :: Fed(Linked(blocks, links, ws).1, e) <==> Fed(links, e) || FedBy(ws, e)
  {
    LinkedKeys(blocks, links, ws);
    LinkedShape(blocks, links, ws);
    var all := Linked(blocks, links, ws).1;
    forall e ensures Fed(all, e) <==> Fed(links, e) || FedBy(ws, e) {
      if Fed(all, e) {
        var id :| id in all && all[id].source.Some? && all[id].target == Some(e);
        if id !in links {
          var k :| 0 <= k < |ws| && ws[k].id == id;
          assert FedBy(ws, e);
        }
      }
      if Fed(links, e) {
        var id :| id in links && links[id].source.Some? && links[id].target == Some(e);
        forall k | 0 <= k < |ws| ensures ws[k].id != id { }
        assert all[id] == links[id];
      }
      if FedBy(ws, e) {
        var k :| 0 <= k < |ws| && ws[k].source.Some? && ws[k].target == Some(e);
        assert all[ws[k].id] == ws[k].(lastTarget := ws[k].target);
      }
    }
  }

  /** Pasting into a graph with accurate flags: the pasted blocks, whose flags
      match the pasted wires, agree with every wire once all are in. */
  lemma PastedDefaults(b0: map<Id, Block>, l0: map<Id, Wire>, bs: seq<Block>, ws: seq<Wire>)
    requires DefaultsAccurate(b0, l0) && EndsAtBlocks(b0, l0)
    requires forall i, j :: 0 <= i < j < |bs| ==> bs[i].id != bs[j].id
    requires forall k :: 0 <= k < |bs| ==> bs[k].id !in b0
    requires FeedFreePorts(l0, ws) && FlagsMatch(bs, ws)
    requires forall k :: 0 <= k < |ws| ==> ws[k].target.Some? && ws[k].target.value.block in BlockIds(bs)
    ensures DefaultsAccurate(WithBlocks(b0, bs), Linked(WithBlocks(b0, bs), l0, ws).1)
  {
    var blocks := WithBlocks(b0, bs);
    var all := Linked(blocks, l0, ws).1;
    WithBlocksKeys(b0, bs);
    WithBlocksShape(b0, bs);
    FedAfterLinked(blocks, l0, ws);
    forall b, i | b in blocks && 0 <= i < |blocks[b].data.inPorts| && blocks[b].data.inPorts[i].default.Some?
      && FirstOfName(blocks[b].data.inPorts, i)
      ensures blocks[b].data.inPorts[i].default.value.apply == !Fed(all, Endpoint(b, blocks[b].data.inPorts[i].name))
    {
      var e := Endpoint(b, blocks[b].data.inPorts[i].name);
      if b in BlockIds(bs) {
        var k :| 0 <= k < |bs| && bs[k].id == b;
        assert blocks[b] == bs[k];
        assert !Fed(l0, e) by {
          forall id | id in l0 && l0[id].target.Some? ensures l0[id].target.value != e {
            assert l0[id].target.value.block in b0;
          }
        }
      } else {
        assert blocks[b] == b0[b];
        assert !FedBy(ws, e) by {
          forall k | 0 <= k < |ws| ensures ws[k].target != Some(e) {
            assert ws[k].target.value.block in BlockIds(bs);
          }
        }
      }
    }
  }

  /** Pasted wires with distinct ids and targets, into ports no old wire feeds,
      keep every attached wire tracking its target and every port with one wire. */
  lemma PastedWiresSound(blocks: map<Id, Block>, l0: map<Id, Wire>, ws: seq<Wire>)
    requires Tracked(l0) && OneWirePerPort(l0) && FeedFreePorts(l0, ws)
    ensures Tracked(Linked(blocks, l0, ws).1) && OneWirePerPort(Linked(blocks, l0, ws).1)
  {
    LinkedKeys(blocks, l0, ws);
    LinkedShape(blocks, l0, ws);
    var all := Linked(blocks, l0, ws).1;
    forall a, b | a in all && b in all && a != b && all[a].source.Some? && all[b].source.Some? && all[a].target.Some?
      ensures all[a].target != all[b].target
    {
      if a in WireIds(ws) && b in WireIds(ws) {
        var i :| 0 <= i < |ws| && ws[i].id == a;
        var j :| 0 <= j < |ws| && ws[j].id == b;
        assert i != j;
      } else if a in WireIds(ws) {
        var i :| 0 <= i < |ws| && ws[i].id == a;
        assert all[b] == l0[b];
        assert !Fed(l0, ws[i].target.value);
      } else if b in WireIds(ws) {
        var j :| 0 <= j < |ws| && ws[j].id == b;
        assert all[a] == l0[a];
        assert !Fed(l0, ws[j].target.value);
      } else {
        assert all[a] == l0[a] && all[b] == l0[b];
      }
    }
    forall id | id in all && all[id].source.Some? && all[id].target.Some?
      ensures all[id].lastTarget == all[id].target
    {
      if id in WireIds(ws) {
        var k :| 0 <= k < |ws| && ws[k].id == id;
      } else {
        assert all[id] == l0[id];
      }
    }
  }

  /** An ordinary paste keeps the flags accurate: into a graph whose flags are
      accurate and whose wires end at its blocks, paste blocks with fresh ids
      whose flags match the pasted wires, and wires into free, distinct ports
      of the pasted blocks. */
  lemma PastedAccurate(b0: map<Id, Block>, l0: map<Id, Wire>, bs: seq<Block>, ws: seq<Wire>)
    requires Accurate(b0, l0) && EndsAtBlocks(b0, l0)
    requires forall i, j :: 0 <= i < j < |bs| ==> bs[i].id != bs[j].id
    requires forall k :: 0 <= k < |bs| ==> bs[k].id !in b0
    requires FeedFreePorts(l0, ws) && FlagsMatch(bs, ws)
    requires forall k :: 0 <= k < |ws| ==> ws[k].target.Some? && ws[k].target.value.block in BlockIds(bs)
    ensures Accurate(Linked(WithBlocks(b0, bs), l0, ws).0, Linked(WithBlocks(b0, bs), l0, ws).1)
  {
    var blocks := WithBlocks(b0, bs);
    var all := Linked(blocks, l0, ws).1;
    PastedDefaults(b0, l0, bs, ws);
    PastedWiresSound(blocks, l0, ws);
    LinkedShape(blocks, l0, ws);
    forall k | 0 <= k < |ws| ensures Fed(all, ws[k].target.value) {
      assert ws[k].id in all && all[ws[k].id].source.Some? && all[ws[k].id].target == ws[k].target;
    }
    SettleFlags(blocks, l0, all, ws);
  }

  /** Block cells followed by wire cells add up to the blocks added first and the
      wires after them. */
  lemma {:induction false} AddedInOrder(blocks: map<Id, Block>, links: map<Id, Wire>, cells: seq<Cell>,
                                        bs: seq<Block>, ws: seq<Wire>)
    requires |cells| == |bs| + |ws|
    requires forall k :: 0 <= k < |bs| ==> cells[k] == BlockCell(bs[k])
    requires forall k :: 0 <= k < |ws| ==> cells[|bs| + k] == WireCell(ws[k])
    ensures Added(blocks, links, cells) == Linked(WithBlocks(blocks, bs), links, ws)
    decreases |cells|
  {
    if cells != [] {
      var n := |cells| - 1;
      if ws != [] {
        var m := |ws| - 1;
        assert forall k :: 0 <= k < m ==> cells[..n][|bs| + k] == WireCell(ws[..m][k]);
        AddedInOrder(blocks, links, cells[..n], bs, ws[..m]);
        assert cells[n] == WireCell(ws[m]);
      } else {
        var m := |bs| - 1;
        assert forall k :: 0 <= k < m ==> cells[..n][k] == BlockCell(bs[..m][k]);
        AddedInOrder(blocks, links, cells[..n], bs[..m], ws);
        assert cells[n] == BlockCell(bs[m]);
      }
    }
  }

  /** `graph.addCells(cells)`: every cell is added in turn, and every wire fires
      the `add` handler as it arrives. */
  method AddCells(canvas: Canvas, cells: seq<Cell>)
    requires canvas.Valid()
    requires forall i, j :: 0 <= i < j < |cells| ==> CellId(cells[i]) != CellId(cells[j])
    requires forall k :: 0 <= k < |cells| ==> CellId(cells[k]) !in canvas.blocks && CellId(cells[k]) !in canvas.links
    modifies canvas
    ensures canvas.Valid()
    ensures (canvas.blocks, canvas.links) == Added(old(canvas.blocks), old(canvas.links), cells)
    ensures canvas.selection == old(canvas.selection) && canvas.clipboard == old(canvas.clipboard)
  {
    var k := 0;
    while k < |cells|
      invariant 0 <= k <= |cells|
      invariant canvas.Valid()
      invariant (canvas.blocks, canvas.links) == Added(old(canvas.blocks), old(canvas.links), cells[..k])
      invariant forall j :: k <= j < |cells| ==> CellId(cells[j]) !in canvas.blocks && CellId(cells[j]) !in canvas.links
      invariant canvas.selection == old(canvas.selection) && canvas.clipboard == old(canvas.clipboard)
    {
      assert cells[..k + 1][..k] == cells[..k];
      match cells[k] {
        case BlockCell(b) => canvas.AddBlock(b);
        case WireCell(w) => canvas.AddLink(w);
      }
      k := k + 1;
    }
    assert cells[..k] == cells;
  }

  /** The cells of a pasted design have distinct ids, none of them in `used`. */
  lemma CellsApart(cells: seq<Cell>, bs: seq<Block>, ws: seq<Wire>, used: set<Id>)
    requires |cells| == |bs| + |ws|
    requires forall k :: 0 <= k < |bs| ==> cells[k] == BlockCell(bs[k])
    requires forall k :: 0 <= k < |ws| ==> cells[|bs| + k] == WireCell(ws[k])
    requires forall i, j :: 0 <= i < j < |bs| ==> bs[i].id != bs[j].id
    requires forall i, j :: 0 <= i < j < |ws| ==> ws[i].id != ws[j].id
    requires forall i, j :: 0 <= i < |bs| && 0 <= j < |ws| ==> bs[i].id != ws[j].id
    requires forall k :: 0 <= k < |bs| ==> bs[k].id !in used
    requires forall k :: 0 <= k < |ws| ==> ws[k].id !in used
    ensures forall i, j :: 0 <= i < j < |cells| ==> CellId(cells[i]) != CellId(cells[j])
    ensures forall k :: 0 <= k < |cells| ==> CellId(cells[k]) !in used
  {
    forall i, j | 0 <= i < j < |cells| ensures CellId(cells[i]) != CellId(cells[j]) {
      if j < |bs| {
      } else if i < |bs| {
        assert cells[|bs| + (j - |bs|)] == WireCell(ws[j - |bs|]);
      } else {
        assert cells[|bs| + (i - |bs|)] == WireCell(ws[i - |bs|]);
        assert cells[|bs| + (j - |bs|)] == WireCell(ws[j - |bs|]);
      }
    }
    forall k | |bs| <= k < |cells| ensures CellId(cells[k]) !in used {
      assert cells[|bs| + (k - |bs|)] == WireCell(ws[k - |bs|]);
    }
  }

  /** The pasted blocks become the selection, in order. */
  method SelectPasted(canvas: Canvas, blocks: seq<Block>)
    requires canvas.Valid() && canvas.selection == []
    requires forall i, j :: 0 <= i < j < |blocks| ==> blocks[i].id != blocks[j].id
    requires forall k :: 0 <= k < |blocks| ==> blocks[k].id in canvas.blocks
    modifies canvas
    ensures canvas.Valid()
    ensures canvas.selection == seq(|blocks|, i requires 0 <= i < |blocks| => blocks[i].id)
    ensures Members(canvas.selection) == BlockIds(blocks)
    ensures canvas.blocks == old(canvas.blocks) && canvas.links == old(canvas.links)
    ensures canvas.clipboard == old(canvas.clipboard)
  {
    var k := 0;
    while k < |blocks|
      invariant 0 <= k <= |blocks|
      invariant canvas.Valid()
      invariant canvas.selection == seq(k, i requires 0 <= i < k => blocks[i].id)
      invariant canvas.blocks == old(canvas.blocks) && canvas.links == old(canvas.links)
      invariant canvas.clipboard == old(canvas.clipboard)
    {
      canvas.Select(blocks[k].id);
      k := k + 1;
    }
    forall x | x in BlockIds(blocks) ensures x in Members(canvas.selection) {
      var i :| 0 <= i < |blocks| && blocks[i].id == x;
      assert canvas.selection[i] == x;
    }
  }

  /** `appendDesign(design, dependencies)` with `offset` already computed and
      `otherBoard` standing for `design.board !== common.selectedBoard.name`.
      The pasted blocks are stored as loaded, each pasted wire is stored with
      its target recorded as its last one, every wire already there is kept,
      and an ordinary paste keeps the default flags accurate: the old flags
      were accurate, the old wires end at old blocks, the pasted blocks' flags
      match the pasted wires, and those wires feed free, distinct ports. The
      first accuracy clause covers a paste whose wires feed no defaulted port
      of the pasted blocks, even into a graph with wires left dangling at
      blocks it no longer holds. Every id in the graph stays marked used, so
      a second paste may follow. */
  method AppendDesign(canvas: Canvas, registry: Registry, ids: IdSupply,
                      bs: array<BlockInstance>, ws: array<WireInstance>,
                      incoming: map<string, Dependency>, otherBoard: bool, offset: Point)
      returns (cells: seq<Cell>, blocks: seq<Block>, wires: seq<Wire>)
    requires canvas.Valid() && ids.Valid()
    requires canvas.blocks.Keys + canvas.links.Keys <= ids.used
    requires forall k :: 0 <= k < bs.Length ==> Known(bs[k].blockType, Merged(registry.deps, incoming))
    requires forall k :: 0 <= k < ws.Length ==>
               ws[k].source.block in InstanceIds(bs[..]) && ws[k].target.block in InstanceIds(bs[..])
    modifies canvas, registry, ids, bs, ws
    ensures registry.deps == Merged(old(registry.deps), incoming)
    ensures canvas.Valid() && ids.Valid()
    ensures BlocksDone(old(bs[..]), bs[..], bs.Length, blocks, Options(true, otherBoard, false, Some(offset)),
                       registry.deps, old(ids.used), ids.used)
    ensures |wires| == ws.Length
    ensures forall k :: 0 <= k < ws.Length ==> WireResolved(wires[k], ws[k], bs[..], blocks)
    ensures |cells| == |blocks| + |wires|
    ensures (canvas.blocks, canvas.links) == Added(old(canvas.blocks), old(canvas.links), cells)
    ensures (canvas.blocks, canvas.links) == Linked(WithBlocks(old(canvas.blocks), blocks), old(canvas.links), wires)
    ensures canvas.blocks.Keys == old(canvas.blocks).Keys + BlockIds(blocks)
    ensures canvas.links.Keys == old(canvas.links).Keys + WireIds(wires)
    ensures forall k :: 0 <= k < |wires| ==> canvas.links[wires[k].id] == wires[k].(lastTarget := wires[k].target)
    ensures forall id :: id in old(canvas.links) ==> canvas.links[id] == old(canvas.links)[id]
    ensures (Accurate(WithBlocks(old(canvas.blocks), blocks), old(canvas.links)) && FeedFreePorts(old(canvas.links), wires))
              ==> Accurate(canvas.blocks, canvas.links)
    ensures (Accurate(old(canvas.blocks), old(canvas.links)) && EndsAtBlocks(old(canvas.blocks), old(canvas.links))
             && FeedFreePorts(old(canvas.links), wires) && FlagsMatch(blocks, wires))
              ==> Accurate(canvas.blocks, canvas.links)
    ensures Members(canvas.selection) == BlockIds(blocks) && |canvas.selection| == |blocks|
    ensures canvas.clipboard == old(canvas.clipboard)
    ensures old(ids.used) <= ids.used
    ensures canvas.blocks.Keys + canvas.links.Keys <= ids.used
  {
    canvas.CancelSelection();
    registry.Merge(incoming);
    var opt := Options(true, otherBoard, false, Some(offset));
    cells, blocks, wires := GraphToCells(bs, ws, opt, registry.deps, ids);
    PastedIdsUsed(blocks, bs[..], wires, old(ids.used), ids.used);
    CellsApart(cells, blocks, wires, old(ids.used));
    TargetsPasted(wires, ws[..], bs[..], blocks);
    PasteCells(canvas, cells, blocks, wires);
  }

  /** Every id a paste hands out is new and then marked used: the cloned
      blocks' ids and the wires' ids come from the supply. */
  lemma PastedIdsUsed(blocks: seq<Block>, insts: seq<BlockInstance>, wires: seq<Wire>, before: set<Id>, after: set<Id>)
    requires |insts| == |blocks|
    requires forall k :: 0 <= k < |blocks| ==> IdRule(blocks[k], insts[k], true, before, after)
    requires forall k :: 0 <= k < |wires| ==> wires[k].id in after
    ensures forall k :: 0 <= k < |blocks| ==> blocks[k].id !in before
    ensures BlockIds(blocks) + WireIds(wires) <= after
  {
    forall k | 0 <= k < |blocks| ensures blocks[k].id !in before {
      assert IdRule(blocks[k], insts[k], true, before, after);
    }
    forall x | x in BlockIds(blocks) ensures x in after {
      var k :| 0 <= k < |blocks| && blocks[k].id == x;
      assert IdRule(blocks[k], insts[k], true, before, after);
    }
  }

  /** The end of `appendDesign`: `graph.addCells(cells)`, then the pasted blocks
      become the selection. */
  method PasteCells(canvas: Canvas, cells: seq<Cell>, blocks: seq<Block>, wires: seq<Wire>)
    requires canvas.Valid() && canvas.selection == []
    requires |cells| == |blocks| + |wires|
    requires forall k :: 0 <= k < |blocks| ==> cells[k] == BlockCell(blocks[k])
    requires forall k :: 0 <= k < |wires| ==> cells[|blocks| + k] == WireCell(wires[k])
    requires forall i, j :: 0 <= i < j < |cells| ==> CellId(cells[i]) != CellId(cells[j])
    requires forall k :: 0 <= k < |cells| ==> CellId(cells[k]) !in canvas.blocks && CellId(cells[k]) !in canvas.links
    requires forall k :: 0 <= k < |wires| ==> wires[k].source.Some? && wires[k].target.Some?
    requires forall k :: 0 <= k < |wires| ==> wires[k].target.value.block in BlockIds(blocks)
    modifies canvas
    ensures canvas.Valid()
    ensures (canvas.blocks, canvas.links) == Added(old(canvas.blocks), old(canvas.links), cells)
    ensures (canvas.blocks, canvas.links) == Linked(WithBlocks(old(canvas.blocks), blocks), old(canvas.links), wires)
    ensures canvas.blocks.Keys == old(canvas.blocks).Keys + BlockIds(blocks)
    ensures canvas.links.Keys == old(canvas.links).Keys + WireIds(wires)
    ensures forall k :: 0 <= k < |wires| ==> canvas.links[wires[k].id] == wires[k].(lastTarget := wires[k].target)
    ensures forall id :: id in old(canvas.links) ==> canvas.links[id] == old(canvas.links)[id]
    ensures (Accurate(WithBlocks(old(canvas.blocks), blocks), old(canvas.links)) && FeedFreePorts(old(canvas.links), wires))
              ==> Accurate(canvas.blocks, canvas.links)
    ensures (Accurate(old(canvas.blocks), old(canvas.links)) && EndsAtBlocks(old(canvas.blocks), old(canvas.links))
             && FeedFreePorts(old(canvas.links), wires) && FlagsMatch(blocks, wires))
              ==> Accurate(canvas.blocks, canvas.links)
    ensures Members(canvas.selection) == BlockIds(blocks) && |canvas.selection| == |blocks|
    ensures canvas.clipboard == old(canvas.clipboard)
  {
    forall i, j | 0 <= i < j < |blocks| ensures blocks[i].id != blocks[j].id {
      assert CellId(cells[i]) != CellId(cells[j]);
    }
    forall i, j | 0 <= i < j < |wires| ensures wires[i].id != wires[j].id {
      assert CellId(cells[|blocks| + i]) != CellId(cells[|blocks| + j]);
    }
    forall k | 0 <= k < |blocks| ensures blocks[k].id !in canvas.blocks {
      assert CellId(cells[k]) !in canvas.blocks;
    }
    forall k | 0 <= k < |wires| ensures wires[k].id !in canvas.links {
      assert CellId(cells[|blocks| + k]) !in canvas.links;
    }
    AddCells(canvas, cells);
    Placed(old(canvas.blocks), old(canvas.links), cells, blocks, wires);
    SelectPasted(canvas, blocks);
  }

  /** What adding the cells of a pasted design does to the graph, in the terms
      `appendDesign` promises. */
  lemma Placed(b0: map<Id, Block>, l0: map<Id, Wire>, cells: seq<Cell>, blocks: seq<Block>, wires: seq<Wire>)
    requires |cells| == |blocks| + |wires|
    requires forall k :: 0 <= k < |blocks| ==> cells[k] == BlockCell(blocks[k])
    requires forall k :: 0 <= k < |wires| ==> cells[|blocks| + k] == WireCell(wires[k])
    requires forall i, j :: 0 <= i < j < |blocks| ==> blocks[i].id != blocks[j].id
    requires forall i, j :: 0 <= i < j < |wires| ==> wires[i].id != wires[j].id
    requires forall k :: 0 <= k < |wires| ==> wires[k].source.Some? && wires[k].target.Some? && wires[k].id !in l0
    requires forall k :: 0 <= k < |blocks| ==> blocks[k].id !in b0
    requires forall k :: 0 <= k < |wires| ==> wires[k].target.value.block in BlockIds(blocks)
    ensures Added(b0, l0, cells) == Linked(WithBlocks(b0, blocks), l0, wires)
    ensures Added(b0, l0, cells).0.Keys == b0.Keys + BlockIds(blocks)
    ensures Added(b0, l0, cells).1.Keys == l0.Keys + WireIds(wires)
    ensures forall k :: 0 <= k < |wires| ==> Added(b0, l0, cells).1[wires[k].id] == wires[k].(lastTarget := wires[k].target)
    ensures forall id :: id in l0 ==> Added(b0, l0, cells).1[id] == l0[id]
    ensures (Accurate(WithBlocks(b0, blocks), l0) && FeedFreePorts(l0, wires))
              ==> Accurate(Added(b0, l0, cells).0, Added(b0, l0, cells).1)
    ensures (Accurate(b0, l0) && EndsAtBlocks(b0, l0) && FeedFreePorts(l0, wires) && FlagsMatch(blocks, wires))
              ==> Accurate(Added(b0, l0, cells).0, Added(b0, l0, cells).1)
  {
    AddedInOrder(b0, l0, cells, blocks, wires);
    WithBlocksKeys(b0, blocks);
    LinkedKeys(WithBlocks(b0, blocks), l0, wires);
    LinkedShape(WithBlocks(b0, blocks), l0, wires);
    if Accurate(WithBlocks(b0, blocks), l0) && FeedFreePorts(l0, wires) {
      LinkedKeepsAccurate(WithBlocks(b0, blocks), l0, wires);
    }
    if Accurate(b0, l0) && EndsAtBlocks(b0, l0) && FeedFreePorts(l0, wires) && FlagsMatch(blocks, wires) {
      PastedAccurate(b0, l0, blocks, wires);
    }
  }

  /** Every wire of a pasted design ends at a pasted block. */
  lemma TargetsPasted(wires: seq<Wire>, ws: seq<WireInstance>, bs: seq<BlockInstance>, blocks: seq<Block>)
    requires |wires| == |ws|
    requires forall k :: 0 <= k < |ws| ==> WireResolved(wires[k], ws[k], bs, blocks)
    ensures forall k :: 0 <= k < |wires| ==> wires[k].target.Some? && wires[k].target.value.block in BlockIds(blocks)
  {
    forall k | 0 <= k < |wires| ensures wires[k].target.value.block in BlockIds(blocks) {
      var j :| 0 <= j < |bs| && j < |blocks| && bs[j].id == ws[k].target.block
               && wires[k].target.value == Endpoint(blocks[j].id, ws[k].target.port);
    }
  }
}
