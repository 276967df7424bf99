/** The values the editor's graph is made of: positions, ports, blocks, wires
    and the warning tags shown to the user. */
module Cells {

  datatype Option<+T> = None | Some(value: T)

  /** Cell identifiers. JointJS draws them as UUID strings; only equality and
      freshness matter here, so they are naturals. */
  type Id = nat

  datatype Point = Point(x: int, y: int)

  function Translate(p: Point, offset: Point): Point
  {
    Point(p.x + offset.x, p.y + offset.y)
  }

  function Negate(offset: Point): Point
  {
    Point(-offset.x, -offset.y)
  }

  /** The `pos` attribute of a port magnet; `NoSide` when the attribute is absent. */
  datatype Side = Left | Right | Top | Bottom | NoSide

  /** A port magnet of a rendered block: its owner, its `port` attribute (absent on
      the block's own element), whether its `type` attribute is "output", and its
      side. Two magnets are the same SVG element exactly when they are equal. */
  datatype Magnet = Magnet(owner: Id, port: Option<string>, output: bool, pos: Side)

  /** An entry of a block's `leftPorts`, with its optional bus width. */
  datatype LeftPort = LeftPort(id: string, size: Option<nat>)

  /** The default-value policy of an input port; only `apply` is ever changed. */
  datatype DefaultRule = DefaultRule(apply: bool, pin: string)

  /** An entry of a block's `data.ports.in`. */
  datatype InPort = InPort(name: string, default: Option<DefaultRule>)

  /** A pin value is a label from the board, or the number written by a reset. */
  datatype PinValue = Num(n: int) | Text(s: string)

  datatype Pin = Pin(index: string, name: string, value: PinValue)

  datatype BlockData = BlockData(pins: seq<Pin>, inPorts: seq<InPort>)

  datatype Block = Block(id: Id, blockType: string, pullup: bool, position: Point,
                         leftPorts: seq<LeftPort>, data: BlockData, disabled: bool)

  /** A connected wire end: a block id and a port name. */
  datatype Endpoint = Endpoint(block: Id, port: string)

  /** A wire; an end that is `None` dangles (it is being drawn or dragged). */
  datatype Wire = Wire(id: Id, source: Option<Endpoint>, target: Option<Endpoint>,
                       lastTarget: Option<Endpoint>, size: Option<nat>, vertices: seq<Point>)

  datatype Cell = BlockCell(block: Block) | WireCell(wire: Wire)

  /** The warnings the editor can show, as tags instead of localised text. */
  datatype Warning =
    | InvalidConnection
    | MultipleInputs
    | PullupAlreadyConnected
    | PullupBlocksOthers
    | PullupOnlyInput
    | SizeMismatch(wireSize: nat, portSize: nat)

  /** `size || 1`: an absent or zero width counts as 1. */
  function SizeOr1(size: Option<nat>): (r: nat)
    ensures r >= 1
    ensures size.Some? && size.value > 0 ==> r == size.value
    ensures size.None? || size.value == 0 ==> r == 1
  {
    if size.None? || size.value == 0 then 1 else size.value
  }

  /** Every vertex moved by `offset`. */
  function Shifted(vertices: seq<Point>, offset: Point): (r: seq<Point>)
  {
    seq(|vertices|, k requires 0 <= k < |vertices| => Translate(vertices[k], offset))
  }

  /** Shifting back by the negated offset restores the vertices. */
  lemma ShiftedBack(vertices: seq<Point>, offset: Point)
    ensures Shifted(Shifted(vertices, offset), Negate(offset)) == vertices
  {
    var back := Shifted(Shifted(vertices, offset), Negate(offset));
    assert |back| == |vertices|;
    forall k | 0 <= k < |vertices| ensures back[k] == vertices[k] {
    }
  }

  /** The vertex loop of `step` and of `graphToCells`: a new list with every
      vertex moved by `offset`, in order. */
  method ShiftVertices(vertices: seq<Point>, offset: Point) returns (moved: seq<Point>)
    ensures moved == Shifted(vertices, offset)
    ensures |moved| == |vertices|
    ensures forall k :: 0 <= k < |vertices| ==>
              moved[k].x == vertices[k].x + offset.x && moved[k].y == vertices[k].y + offset.y
  {
    moved := [];
    var i := 0;
    while i < |vertices|
      invariant 0 <= i <= |vertices|
      invariant |moved| == i
      invariant forall k :: 0 <= k < i ==> moved[k] == Translate(vertices[k], offset)
    {
      moved := moved + [Translate(vertices[i], offset)];
      i := i + 1;
    }
  }
}
