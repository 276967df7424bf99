/** Connection legality: the `validateConnection` option of the paper. Given the
    candidate's source and target blocks and magnets, the wire being drawn and the
    wires already in the graph, it accepts or rejects, and may ask for a warning. */
module Connection {
  import opened Cells

  datatype Decision = Decision(accept: bool, warning: Option<Warning>)

  function Reject(w: Warning): Decision
  {
    Decision(false, Some(w))
  }

  /** `l` ends at port `port` of block `t` (a magnet without a `port` attribute
      matches no wire). */
  predicate TargetsPort(l: Wire, t: Id, port: Option<string>)
  {
    l.target.Some? && l.target.value.block == t && port == Some(l.target.value.port)
  }

  predicate SourcedBy(l: Wire, s: Id)
  {
    l.source.Some? && l.source.value.block == s
  }

  /** Every wire but the one being drawn ends at a block of the graph. The scan
      reads the target view of each such wire without a guard; with link pinning
      disabled the editor never leaves another wire dangling. */
  predicate Settled(blocks: map<Id, Block>, links: seq<Wire>, drawn: Id)
  {
    forall l :: l in links && l.id != drawn ==> l.target.Some? && l.target.value.block in blocks
  }

  /** `l` starts at `s` and ends at a pull-up block. */
  predicate FeedsPullup(blocks: map<Id, Block>, l: Wire, s: Id)
  {
    SourcedBy(l, s) && l.target.Some? && l.target.value.block in blocks
    && blocks[l.target.value.block].pullup
  }

  /** The width declared by the first left port whose id is `port`; no such
      port, no width. */
  function LeftPortSize(ports: seq<LeftPort>, port: Option<string>): (size: Option<nat>)
    ensures size.Some? ==> exists k :: 0 <= k < |ports| && Some(ports[k].id) == port && ports[k].size == size
    ensures (forall k :: 0 <= k < |ports| ==> Some(ports[k].id) != port) ==> size.None?
    ensures forall k :: (0 <= k < |ports| && Some(ports[k].id) == port
                         && forall j :: 0 <= j < k ==> Some(ports[j].id) != port)
                        ==> size == ports[k].size
  {
    if ports == [] then None
    else if Some(ports[0].id) == port then ports[0].size
    else LeftPortSize(ports[1..], port)
  }

  /** The guards applied to one existing wire `l`, in order: the warning of the
      first guard it fails, or `None` when it passes them all. */
  function LinkGuard(blocks: map<Id, Block>, l: Wire, s: Block, t: Block, mt: Magnet): Option<Warning>
    requires l.target.Some? && l.target.value.block in blocks
  {
    if TargetsPort(l, t.id, mt.port) then Some(MultipleInputs)
    else if t.pullup && SourcedBy(l, s.id) then Some(PullupAlreadyConnected)
    else if blocks[l.target.value.block].pullup && SourcedBy(l, s.id) then Some(PullupBlocksOthers)
    else None
  }

  /** The wire at index `k` is the first one, the wire being drawn skipped, that
      fails a guard. */
  ghost predicate FirstFailing(blocks: map<Id, Block>, links: seq<Wire>, drawn: Id,
                               s: Block, t: Block, mt: Magnet, k: int)
    requires Settled(blocks, links, drawn)
  {
    && 0 <= k < |links| && links[k].id != drawn
    && (assert links[k] in links; LinkGuard(blocks, links[k], s, t, mt).Some?)
    && forall j :: 0 <= j < k && links[j].id != drawn ==>
         (assert links[j] in links; LinkGuard(blocks, links[j], s, t, mt).None?)
  }

  /** The scan over the existing wires; the first wire that fails a guard
      decides the warning. The wire being drawn is skipped. */
  function ScanLinks(blocks: map<Id, Block>, links: seq<Wire>, drawn: Id, s: Block, t: Block, mt: Magnet)
    : (r: Option<Warning>)
    requires Settled(blocks, links, drawn)
    ensures r.None? <==>
              forall l :: l in links && l.id != drawn ==>
                !TargetsPort(l, t.id, mt.port) && !(t.pullup && SourcedBy(l, s.id)) && !FeedsPullup(blocks, l, s.id)
    ensures r.Some? ==> r.value == MultipleInputs || r.value == PullupAlreadyConnected || r.value == PullupBlocksOthers
  {
    if links == [] then None
    else
      var l := links[0];
      assert forall m :: m in links[1..] ==> m in links;
      if l.id == drawn then ScanLinks(blocks, links[1..], drawn, s, t, mt)
      else if TargetsPort(l, t.id, mt.port) then Some(MultipleInputs)
      else if t.pullup && SourcedBy(l, s.id) then Some(PullupAlreadyConnected)
      else if blocks[l.target.value.block].pullup && SourcedBy(l, s.id) then Some(PullupBlocksOthers)
      else ScanLinks(blocks, links[1..], drawn, s, t, mt)
  }

  /** A warning from the scan is the one of the first wire, the wire being drawn
      skipped, that fails a guard, and of the first guard that wire fails. */
  lemma {:induction false} ScanFindsFirstFailing(blocks: map<Id, Block>, links: seq<Wire>, drawn: Id,
                                                 s: Block, t: Block, mt: Magnet)
    requires Settled(blocks, links, drawn)
    ensures ScanLinks(blocks, links, drawn, s, t, mt).Some? ==>
              exists k :: FirstFailing(blocks, links, drawn, s, t, mt, k)
                          && ScanLinks(blocks, links, drawn, s, t, mt) == LinkGuard(blocks, links[k], s, t, mt)
  {
    if links != [] {
      var l := links[0];
      assert forall m :: m in links[1..] ==> m in links;
      var r := ScanLinks(blocks, links, drawn, s, t, mt);
      if l.id != drawn && LinkGuard(blocks, l, s, t, mt).Some? {
        assert FirstFailing(blocks, links, drawn, s, t, mt, 0);
      } else if r.Some? {
        ScanFindsFirstFailing(blocks, links[1..], drawn, s, t, mt);
        var k :| FirstFailing(blocks, links[1..], drawn, s, t, mt, k)
                 && r == LinkGuard(blocks, links[1..][k], s, t, mt);
        assert FirstFailing(blocks, links, drawn, s, t, mt, k + 1);
      }
    }
  }

  /** The rules as one declarative statement, independent of the order in which
      the source checks them. */
  ghost predicate Legal(blocks: map<Id, Block>, links: seq<Wire>, drawn: Wire,
                        s: Block, ms: Magnet, t: Block, mt: Magnet)
  {
    && !(ms.output && mt.output)
    && !(ms.pos == Right && mt.pos != Left)
    && !(ms.pos == Bottom && mt.pos != Top)
    && (forall l :: l in links && l.id != drawn.id ==> !TargetsPort(l, t.id, mt.port))
    && (t.pullup ==> forall l :: l in links && l.id != drawn.id ==> !SourcedBy(l, s.id))
    && (forall l :: l in links && l.id != drawn.id ==> !FeedsPullup(blocks, l, s.id))
    && if t.pullup then s.blockType == "basic.input"
       else SizeOr1(drawn.size) == SizeOr1(LeftPortSize(t.leftPorts, mt.port)) && ms != mt
  }

  /** The output-to-output rule and the side rules pass, as does every existing
      wire's guard: what the pull-up and width rules are left to decide. */
  predicate EarlierRulesPass(blocks: map<Id, Block>, links: seq<Wire>, drawn: Wire,
                             s: Block, ms: Magnet, t: Block, mt: Magnet)
    requires Settled(blocks, links, drawn.id)
  {
    && !(ms.output && mt.output)
    && !(ms.pos == Right && mt.pos != Left)
    && !(ms.pos == Bottom && mt.pos != Top)
    && ScanLinks(blocks, links, drawn.id, s, t, mt).None?
  }

  /** `validateConnection(cellViewS, magnetS, cellViewT, magnetT, end, linkView)`,
      with `drawn` the wire of `linkView` and `links` the graph's wires. */
  function Validate(blocks: map<Id, Block>, links: seq<Wire>, drawn: Wire,
                    s: Block, ms: Magnet, t: Block, mt: Magnet): (d: Decision)
    requires Settled(blocks, links, drawn.id)
    ensures d.accept <==> Legal(blocks, links, drawn, s, ms, t, mt)
    ensures d.accept ==> d.warning.None?
    ensures ms.output && mt.output ==> d == Decision(false, if ms != mt then Some(InvalidConnection) else None)
    ensures (!(ms.output && mt.output) && ((ms.pos == Right && mt.pos != Left) || (ms.pos == Bottom && mt.pos != Top)))
              ==> d == Reject(InvalidConnection)
    ensures (!(ms.output && mt.output) && !(ms.pos == Right && mt.pos != Left) && !(ms.pos == Bottom && mt.pos != Top)
             && ScanLinks(blocks, links, drawn.id, s, t, mt).Some?)
              ==> d == Reject(ScanLinks(blocks, links, drawn.id, s, t, mt).value)
    ensures (EarlierRulesPass(blocks, links, drawn, s, ms, t, mt) && t.pullup && s.blockType != "basic.input")
              ==> d == Reject(PullupOnlyInput)
    ensures (EarlierRulesPass(blocks, links, drawn, s, ms, t, mt) && !t.pullup
             && SizeOr1(drawn.size) != SizeOr1(LeftPortSize(t.leftPorts, mt.port)))
              ==> d == Reject(SizeMismatch(SizeOr1(drawn.size), SizeOr1(LeftPortSize(t.leftPorts, mt.port))))
    ensures (EarlierRulesPass(blocks, links, drawn, s, ms, t, mt) && !t.pullup
             && SizeOr1(drawn.size) == SizeOr1(LeftPortSize(t.leftPorts, mt.port)) && ms == mt)
              ==> d == Decision(false, None)
  {
    if ms.output && mt.output then
      Decision(false, if ms != mt then Some(InvalidConnection) else None)
    else if ms.pos == Right && mt.pos != Left then Reject(InvalidConnection)
    else if ms.pos == Bottom && mt.pos != Top then Reject(InvalidConnection)
    else
      match ScanLinks(blocks, links, drawn.id, s, t, mt)
      case Some(w) => Reject(w)
      case None =>
        if t.pullup then
          if s.blockType == "basic.input" then Decision(true, None) else Reject(PullupOnlyInput)
        else
          var lsize := SizeOr1(drawn.size);
          var tsize := SizeOr1(LeftPortSize(t.leftPorts, mt.port));
          if tsize != lsize then Reject(SizeMismatch(lsize, tsize))
          else Decision(ms != mt, None)
  }

  /** No two wires, other than the one at index `k`, share a target. */
  ghost predicate SingleIncomingExcept(links: seq<Wire>, k: int)
  {
    forall i, j :: 0 <= i < j < |links| && i != k && j != k && links[i].target.Some?
      ==> links[i].target != links[j].target
  }

  /** A block that feeds a pull-up feeds no other wire (the wire at index `k` aside). */
  ghost predicate PullupExclusiveExcept(blocks: map<Id, Block>, links: seq<Wire>, k: int)
  {
    forall i, j :: 0 <= i < |links| && 0 <= j < |links| && i != j && i != k && j != k
      && links[i].source.Some? && FeedsPullup(blocks, links[i], links[i].source.value.block)
      ==> !SourcedBy(links[j], links[i].source.value.block)
  }

  ghost predicate DistinctIds(links: seq<Wire>)
  {
    forall i, j :: 0 <= i < j < |links| ==> links[i].id != links[j].id
  }

  /** Attaching an accepted wire (at index `k`, the one being drawn) to its target
      keeps every port with at most one incoming wire. */
  lemma AcceptKeepsSingleIncoming(blocks: map<Id, Block>, links: seq<Wire>, k: nat,
                                  s: Block, ms: Magnet, t: Block, mt: Magnet, p: string)
    requires k < |links| && DistinctIds(links)
    requires Settled(blocks, links, links[k].id)
    requires SingleIncomingExcept(links, k)
    requires mt.port == Some(p)
    requires Validate(blocks, links, links[k], s, ms, t, mt).accept
    ensures SingleIncomingExcept(links[k := links[k].(target := Some(Endpoint(t.id, p)))], -1)
  {
    var after := links[k := links[k].(target := Some(Endpoint(t.id, p)))];
    forall i, j | 0 <= i < j < |after| && after[i].target.Some?
      ensures after[i].target != after[j].target
    {
      if i == k {
        assert links[j] in links && links[j].id != links[k].id;
      } else if j == k {
        assert links[i] in links && links[i].id != links[k].id;
      }
    }
  }

  /** Attaching an accepted wire keeps pull-ups exclusive: a block feeding a
      pull-up feeds nothing else. */
  lemma AcceptKeepsPullupExclusive(blocks: map<Id, Block>, links: seq<Wire>, k: nat,
                                   s: Block, sp: string, ms: Magnet, t: Block, mt: Magnet, p: string)
    requires k < |links| && DistinctIds(links)
    requires Settled(blocks, links, links[k].id)
    requires PullupExclusiveExcept(blocks, links, k)
    requires links[k].source == Some(Endpoint(s.id, sp))
    requires t.id in blocks && blocks[t.id] == t
    requires mt.port == Some(p)
    requires Validate(blocks, links, links[k], s, ms, t, mt).accept
    ensures PullupExclusiveExcept(blocks, links[k := links[k].(target := Some(Endpoint(t.id, p)))], -1)
  {
    var after := links[k := links[k].(target := Some(Endpoint(t.id, p)))];
    forall i, j | 0 <= i < |after| && 0 <= j < |after| && i != j
      && after[i].source.Some? && FeedsPullup(blocks, after[i], after[i].source.value.block)
      ensures !SourcedBy(after[j], after[i].source.value.block)
    {
      if i == k {
        assert t.pullup;
        assert links[j] in links && links[j].id != links[k].id;
      } else if j == k {
        assert links[i] in links && links[i].id != links[k].id;
        assert !FeedsPullup(blocks, links[i], s.id);
      }
    }
  }
}
