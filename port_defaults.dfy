/** Port-default propagation, as values. A wire that gets a target clears the
    `default.apply` flag of that input port and remembers the port as its
    `lastTarget`; a wire that loses its target, or is removed, sets the flag of the
    port it last fed back to true. Only the first input port with the given name
    that has a `default` is touched. */
module PortDefaults {
  import opened Cells

  predicate NamedWithDefault(p: InPort, name: string)
  {
    p.name == name && p.default.Some?
  }

  /** No earlier port with a default carries the name of port `i`. */
  predicate FirstOfName(ports: seq<InPort>, i: int)
    requires 0 <= i < |ports|
  {
    forall j :: 0 <= j < i ==> !NamedWithDefault(ports[j], ports[i].name)
  }

  function WithApply(p: InPort, value: bool): InPort
    requires p.default.Some?
  {
    p.(default := Some(p.default.value.(apply := value)))
  }

  /** `apply := value` on the first defaulted port of each name in `names`. */
  function SetApply(ports: seq<InPort>, names: set<string>, value: bool): seq<InPort>
  {
    seq(|ports|, i requires 0 <= i < |ports| =>
      if ports[i].default.Some? && ports[i].name in names && FirstOfName(ports, i)
      then WithApply(ports[i], value) else ports[i])
  }

  function WithPorts(b: Block, ports: seq<InPort>): Block
  {
    b.(data := b.data.(inPorts := ports))
  }

  /** The effect of `updatePortDefault(target, value)` on the graph's blocks: an
      absent target, or one whose id is not a block, changes nothing. */
  function PortDefaultSet(blocks: map<Id, Block>, target: Option<Endpoint>, value: bool): map<Id, Block>
  {
    if target.Some? && target.value.block in blocks then
      var b := blocks[target.value.block];
      blocks[target.value.block := WithPorts(b, SetApply(b.data.inPorts, {target.value.port}, value))]
    else blocks
  }

  /** The `add change:source change:target` handler: the new blocks and the new
      state of the wire. */
  function OnLinkChange(blocks: map<Id, Block>, w: Wire): (map<Id, Block>, Wire)
  {
    if w.source.None? then (blocks, w)
    else if w.target.Some? then (PortDefaultSet(blocks, w.target, false), w.(lastTarget := w.target))
    else (PortDefaultSet(blocks, w.lastTarget, true), w)
  }

  /** The port the `remove` handler frees: the target, or the last one. */
  function FreedPort(w: Wire): Option<Endpoint>
  {
    if w.target.Some? then w.target else w.lastTarget
  }

  /** The `remove` handler. */
  function OnLinkRemove(blocks: map<Id, Block>, w: Wire): map<Id, Block>
  {
    PortDefaultSet(blocks, FreedPort(w), true)
  }

  /** SetApply keeps every port's name and whether it has a default, so it keeps
      which ports come first for their name; it changes nothing else but `apply`
      on those first ports whose name is in `names`. */
  lemma SetApplyShape(ports: seq<InPort>, names: set<string>, value: bool)
    ensures |SetApply(ports, names, value)| == |ports|
    ensures forall i :: 0 <= i < |ports| ==>
              SetApply(ports, names, value)[i].name == ports[i].name
              && SetApply(ports, names, value)[i].default.Some? == ports[i].default.Some?
    ensures forall i :: 0 <= i < |ports| ==>
              FirstOfName(SetApply(ports, names, value), i) == FirstOfName(ports, i)
    ensures forall i :: 0 <= i < |ports| && ports[i].default.Some? && ports[i].name in names && FirstOfName(ports, i)
              ==> SetApply(ports, names, value)[i].default.value.apply == value
    ensures forall i :: 0 <= i < |ports| && !(ports[i].default.Some? && ports[i].name in names && FirstOfName(ports, i))
              ==> SetApply(ports, names, value)[i] == ports[i]
  {
    var r := SetApply(ports, names, value);
    forall i | 0 <= i < |ports| ensures FirstOfName(r, i) == FirstOfName(ports, i) {
      assert forall j :: 0 <= j < i ==> (NamedWithDefault(r[j], r[i].name) <==> NamedWithDefault(ports[j], ports[i].name));
    }
  }

  /** Freeing the ports in `a` and then those in `b` frees the ports in both. */
  lemma SetApplyTwice(ports: seq<InPort>, a: set<string>, b: set<string>, value: bool)
    ensures SetApply(SetApply(ports, a, value), b, value) == SetApply(ports, a + b, value)
  {
    var once := SetApply(ports, a, value);
    SetApplyShape(ports, a, value);
    var twice := SetApply(once, b, value);
    var both := SetApply(ports, a + b, value);
    assert |twice| == |both|;
    forall i | 0 <= i < |ports| ensures twice[i] == both[i] {
      assert FirstOfName(once, i) == FirstOfName(ports, i);
    }
  }

  /** Port `e` is fed by some wire that has a source. */
  ghost predicate Fed(links: map<Id, Wire>, e: Endpoint)
  {
    exists id :: id in links && links[id].source.Some? && links[id].target == Some(e)
  }

  /** The flag of every port that decides its name says "the default applies"
      exactly when no wire feeds the port. */
  ghost predicate DefaultsAccurate(blocks: map<Id, Block>, links: map<Id, Wire>)
  {
    forall b, i :: b in blocks && 0 <= i < |blocks[b].data.inPorts| && blocks[b].data.inPorts[i].default.Some?
      && FirstOfName(blocks[b].data.inPorts, i)
      ==> blocks[b].data.inPorts[i].default.value.apply == !Fed(links, Endpoint(b, blocks[b].data.inPorts[i].name))
  }

  /** Every attached wire remembers its target as `lastTarget`. */
  ghost predicate Tracked(links: map<Id, Wire>)
  {
    forall id :: id in links && links[id].source.Some? && links[id].target.Some? ==> links[id].lastTarget == links[id].target
  }

  /** No two wires with a source feed the same port. */
  ghost predicate OneWirePerPort(links: map<Id, Wire>)
  {
    forall a, b :: (a in links && b in links && a != b && links[a].source.Some? && links[b].source.Some?
      && links[a].target.Some?) ==> links[a].target != links[b].target
  }

  ghost predicate Accurate(blocks: map<Id, Block>, links: map<Id, Wire>)
  {
    DefaultsAccurate(blocks, links) && Tracked(links) && OneWirePerPort(links)
  }

  /** The core step: when the wires change whether port `e` is fed and nothing
      else, writing the new answer into `e`'s flag keeps the flags accurate. */
  lemma {:induction false} SetKeepsAccurate(blocks: map<Id, Block>, links: map<Id, Wire>, links': map<Id, Wire>,
                                            e: Endpoint, value: bool)
    requires DefaultsAccurate(blocks, links)
    requires forall e' :: e' != e ==> (Fed(links', e') <==> Fed(links, e'))
    requires value == !Fed(links', e)
    ensures DefaultsAccurate(PortDefaultSet(blocks, Some(e), value), links')
  {
    var blocks' := PortDefaultSet(blocks, Some(e), value);
    forall b, i | b in blocks' && 0 <= i < |blocks'[b].data.inPorts| && blocks'[b].data.inPorts[i].default.Some?
      && FirstOfName(blocks'[b].data.inPorts, i)
      ensures blocks'[b].data.inPorts[i].default.value.apply == !Fed(links', Endpoint(b, blocks'[b].data.inPorts[i].name))
    {
      var ports := blocks[b].data.inPorts;
      if b == e.block {
        SetApplyShape(ports, {e.port}, value);
        if ports[i].name != e.port {
          assert Endpoint(b, ports[i].name) != e;
        }
      } else {
        assert Endpoint(b, ports[i].name) != e;
      }
    }
  }

  /** Drawing a new wire from a source into a free port keeps the flags accurate. */
  lemma ConnectKeepsAccurate(blocks: map<Id, Block>, links: map<Id, Wire>, w: Wire)
    requires Accurate(blocks, links)
    requires w.id !in links && w.source.Some? && w.target.Some? && !Fed(links, w.target.value)
    ensures Accurate(OnLinkChange(blocks, w).0, links[w.id := OnLinkChange(blocks, w).1])
  {
    var links' := links[w.id := w.(lastTarget := w.target)];
    forall e' | e' != w.target.value ensures Fed(links', e') <==> Fed(links, e') {
      if Fed(links', e') {
        var id :| id in links' && links'[id].source.Some? && links'[id].target == Some(e');
        assert id != w.id && id in links;
      }
      if Fed(links, e') {
        var id :| id in links && links[id].source.Some? && links[id].target == Some(e');
        assert id in links' && links'[id] == links[id];
      }
    }
    assert Fed(links', w.target.value) by {
      assert w.id in links' && links'[w.id].source.Some? && links'[w.id].target == w.target;
    }
    SetKeepsAccurate(blocks, links, links', w.target.value, false);
  }

  /** Dragging the target end of an attached wire off its port (the target
      becomes a point) frees that port. */
  lemma DetachKeepsAccurate(blocks: map<Id, Block>, links: map<Id, Wire>, id: Id)
    requires Accurate(blocks, links)
    requires id in links && links[id].source.Some? && links[id].target.Some?
    ensures Accurate(OnLinkChange(blocks, links[id].(target := None)).0,
                     links[id := OnLinkChange(blocks, links[id].(target := None)).1])
  {
    var w := links[id];
    var e := w.target.value;
    var links' := links[id := w.(target := None)];
    assert OnLinkChange(blocks, w.(target := None)) == (PortDefaultSet(blocks, Some(e), true), w.(target := None));
    forall e' | e' != e ensures Fed(links', e') <==> Fed(links, e') {
      if Fed(links', e') {
        var x :| x in links' && links'[x].source.Some? && links'[x].target == Some(e');
        assert x != id && x in links;
      }
      if Fed(links, e') {
        var x :| x in links && links[x].source.Some? && links[x].target == Some(e');
        assert x != id && x in links' && links'[x] == links[x];
      }
    }
    SetKeepsAccurate(blocks, links, links', e, true);
  }

  /** Dropping the target end of a detached wire on a free port keeps the flags
      accurate. */
  lemma AttachKeepsAccurate(blocks: map<Id, Block>, links: map<Id, Wire>, id: Id, e: Endpoint)
    requires Accurate(blocks, links)
    requires id in links && links[id].source.Some? && links[id].target.None? && !Fed(links, e)
    ensures Accurate(OnLinkChange(blocks, links[id].(target := Some(e))).0,
                     links[id := OnLinkChange(blocks, links[id].(target := Some(e))).1])
  {
    var w := links[id];
    var links' := links[id := w.(target := Some(e), lastTarget := Some(e))];
    assert OnLinkChange(blocks, w.(target := Some(e))) ==
           (PortDefaultSet(blocks, Some(e), false), w.(target := Some(e), lastTarget := Some(e)));
    forall e' | e' != e ensures Fed(links', e') <==> Fed(links, e') {
      if Fed(links', e') {
        var x :| x in links' && links'[x].source.Some? && links'[x].target == Some(e');
        assert x != id && x in links;
      }
      if Fed(links, e') {
        var x :| x in links && links[x].source.Some? && links[x].target == Some(e');
        assert x != id && x in links' && links'[x] == links[x];
      }
    }
    assert Fed(links', e) by {
      assert id in links' && links'[id].source.Some? && links'[id].target == Some(e);
    }
    SetKeepsAccurate(blocks, links, links', e, false);
  }

  /** Removing an attached wire frees its port. */
  lemma RemoveKeepsAccurate(blocks: map<Id, Block>, links: map<Id, Wire>, id: Id)
    requires Accurate(blocks, links)
    requires id in links && links[id].source.Some? && links[id].target.Some?
    ensures Accurate(OnLinkRemove(blocks, links[id]), links - {id})
  {
    var e := links[id].target.value;
    var links' := links - {id};
    forall e' | e' != e ensures Fed(links', e') <==> Fed(links, e') {
      if Fed(links, e') {
        var x :| x in links && links[x].source.Some? && links[x].target == Some(e');
        assert x != id && x in links';
      }
    }
    SetKeepsAccurate(blocks, links, links', e, true);
  }
}
