/**
 * Every change a proxy makes goes through `CommandHandler.executeCommand`
 * as an undoable command. Here a command is a value, `Apply` is its effect
 * on the object graph, and a `Document` is the graph of one open model with
 * the log of the commands executed on it, in order.
 */
module Commands {
  import opened Wrappers
  import opened Graph
  import opened PropertyBag

  /** The commands the proxies issue. Each acts on the node `node`:
      `SetPropertyValue` on the property at `index` of its list,
      `RemoveProperties` on the properties at `indices`. */
  datatype Command =
    | SetName(node: NodeId, text: Option<string>)
    | SetDocumentation(node: NodeId, text: Option<string>)
    | AddProperty(node: NodeId, key: string, value: string)
    | SetPropertyValue(node: NodeId, index: nat, value: string)
    | RemoveProperties(node: NodeId, indices: seq<nat>)
    | SetSpecialization(node: NodeId, text: Option<string>)
    | AddProfile(node: NodeId, profile: Profile)
    | SetBounds(node: NodeId, bounds: Bounds)
    | SetFillColor(node: NodeId, text: Option<string>)
    | SetAlpha(node: NodeId, level: int)
    | SetLineAlpha(node: NodeId, level: int)
    | SetGradient(node: NodeId, level: int)
    | SetFigureType(node: NodeId, level: int)
    | SetTextAlignment(node: NodeId, level: int)
    | SetTextPosition(node: NodeId, level: int)
    | SetIconVisible(node: NodeId, level: int)
    | SetImageSource(node: NodeId, level: int)
    | SetImagePosition(node: NodeId, level: int)
    | SetImagePath(node: NodeId, text: Option<string>)
    | DeleteConnection(node: NodeId)
    | DeleteObject(node: NodeId)

  predicate IsStructural(c: Command) {
    c.DeleteConnection? || c.DeleteObject?
  }

  /** The effect of an attribute command on the attributes of its node. */
  function Update(a: Attrs, c: Command): Attrs
    requires !IsStructural(c)
  {
    match c
    case SetName(_, t) => a.(name := t)
    case SetDocumentation(_, t) => a.(documentation := t)
    case AddProperty(_, k, v) => a.(properties := a.properties + [Property(k, v)])
    case SetPropertyValue(_, i, v) =>
      if i < |a.properties| then a.(properties := a.properties[i := a.properties[i].(value := v)]) else a
    case RemoveProperties(_, ix) => a.(properties := RemoveIndices(a.properties, ix))
    case SetSpecialization(_, t) => a.(specialization := t)
    case AddProfile(_, p) => a.(profiles := a.profiles + [p])
    case SetBounds(_, b) => a.(bounds := b)
    case SetFillColor(_, t) => a.(fillColor := t)
    case SetAlpha(_, v) => a.(alpha := v)
    case SetLineAlpha(_, v) => a.(lineAlpha := v)
    case SetGradient(_, v) => a.(gradient := v)
    case SetFigureType(_, v) => a.(figureType := v)
    case SetTextAlignment(_, v) => a.(textAlignment := v)
    case SetTextPosition(_, v) => a.(textPosition := v)
    case SetIconVisible(_, v) => a.(iconVisible := v)
    case SetImageSource(_, v) => a.(imageSource := v)
    case SetImagePosition(_, v) => a.(imagePosition := v)
    case SetImagePath(_, t) => a.(imagePath := t)
  }

  /** Connection `r` removed from the connection lists of every node. */
  function Unlink(nodes: Nodes, r: NodeId): (out: Nodes)
    ensures out.Keys == nodes.Keys
  {
    map x | x in nodes ::
      nodes[x].(links := nodes[x].links.(inRels := Remove(nodes[x].links.inRels, r),
                                         outRels := Remove(nodes[x].links.outRels, r)))
  }

  /** `x` taken out of its container. */
  function Detach(nodes: Nodes, x: NodeId): (out: Nodes)
    requires x in nodes
    ensures out.Keys == nodes.Keys
  {
    var c := nodes[x].links.container;
    var detached := nodes[x := nodes[x].(links := nodes[x].links.(container := None))];
    if c.Some? && c.value in nodes && c.value != x then
      detached[c.value := detached[c.value].(links := detached[c.value].links.(contents := Remove(detached[c.value].links.contents, x)))]
    else detached
  }

  /** The effect of a command; a command on a node that is not in the graph
      changes nothing. */
  function Apply(nodes: Nodes, c: Command): Nodes {
    if c.node !in nodes then nodes
    else match c
      case DeleteConnection(r) => Unlink(nodes, r)
      case DeleteObject(x) => Detach(nodes, x)
      case _ => nodes[c.node := nodes[c.node].(attrs := Update(nodes[c.node].attrs, c))]
  }

  function ApplyAll(nodes: Nodes, cs: seq<Command>): Nodes
    decreases |cs|
  {
    if cs == [] then nodes else ApplyAll(Apply(nodes, cs[0]), cs[1..])
  }

  // ---------------------------------------------------------------------------
  // Commands keep the graph well formed

  /** What `Detach` changes: the container of `x` and the contents of that container. */
  lemma DetachShape(nodes: Nodes, x: NodeId, y: NodeId)
    requires x in nodes && y in nodes
    ensures var c := nodes[x].links.container;
            var l := nodes[y].links;
            Detach(nodes, x)[y] ==
              nodes[y].(links := l.(container := if y == x then None else l.container,
                                    contents := if c == Some(y) && y != x then Remove(l.contents, x) else l.contents))
  {
  }

  lemma DetachWellFormed(nodes: Nodes, rank: map<NodeId, nat>, x: NodeId)
    requires WellFormed(nodes, rank) && x in nodes
    ensures WellFormed(Detach(nodes, x), rank)
    ensures Detach(nodes, x)[x].links.container == None
  {
    var out := Detach(nodes, x);
    var c := nodes[x].links.container;
    assert UpLinkOk(nodes, rank, x);
    forall y | y in out ensures UpLinkOk(out, rank, y) {
      DetachUpLink(nodes, rank, x, y);
    }
    forall p | p in out ensures DownLinksOk(out, p) {
      DetachDownLinks(nodes, rank, x, p);
    }
    forall y | y in out ensures KindOk(out, y) {
      assert KindOk(nodes, y);
      DetachShape(nodes, x, y);
      if nodes[y].concept.Some? {
        DetachShape(nodes, x, nodes[y].concept.value);
      }
    }
    forall y | y in out ensures RelsOk(out, y) {
      assert RelsOk(nodes, y);
      DetachShape(nodes, x, y);
    }
    DetachShape(nodes, x, x);
  }

  lemma DetachUpLink(nodes: Nodes, rank: map<NodeId, nat>, x: NodeId, y: NodeId)
    requires WellFormed(nodes, rank) && x in nodes && y in nodes
    ensures UpLinkOk(Detach(nodes, x), rank, y)
  {
    var out := Detach(nodes, x);
    assert UpLinkOk(nodes, rank, y);
    DetachShape(nodes, x, y);
    var cy := nodes[y].links.container;
    if y != x && cy.Some? {
      DetachShape(nodes, x, cy.value);
      assert DownLinksOk(nodes, cy.value);
      assert y in out[cy.value].links.contents;
    }
  }

  lemma DetachDownLinks(nodes: Nodes, rank: map<NodeId, nat>, x: NodeId, p: NodeId)
    requires WellFormed(nodes, rank) && x in nodes && p in nodes
    ensures DownLinksOk(Detach(nodes, x), p)
  {
    var out := Detach(nodes, x);
    assert DownLinksOk(nodes, p);
    DetachShape(nodes, x, p);
    forall y | y in out[p].links.contents ensures y in out && out[y].links.container == Some(p) {
      DetachShape(nodes, x, y);
    }
  }

  lemma UnlinkWellFormed(nodes: Nodes, rank: map<NodeId, nat>, r: NodeId)
    requires WellFormed(nodes, rank)
    ensures WellFormed(Unlink(nodes, r), rank)
  {
    UnlinkSameStructure(nodes, r);
    SameStructureWellFormed(nodes, Unlink(nodes, r), rank);
  }

  lemma UnlinkSameStructure(nodes: Nodes, r: NodeId)
    ensures SameStructure(nodes, Unlink(nodes, r))
  {
  }

  /** Replacing the attributes of one node keeps its structure. */
  lemma WithAttrsWellFormed(nodes: Nodes, rank: map<NodeId, nat>, x: NodeId, a: Attrs)
    requires WellFormed(nodes, rank) && x in nodes
    ensures WellFormed(nodes[x := nodes[x].(attrs := a)], rank)
  {
    var out := nodes[x := nodes[x].(attrs := a)];
    forall y | y in nodes
      ensures out[y].ifaces == nodes[y].ifaces && out[y].concept == nodes[y].concept
      ensures out[y].links == nodes[y].links
    {
    }
    SameStructureWellFormed(nodes, out, rank);
  }

  lemma ApplyWellFormed(nodes: Nodes, rank: map<NodeId, nat>, c: Command)
    requires WellFormed(nodes, rank)
    ensures WellFormed(Apply(nodes, c), rank)
  {
    if c.node in nodes {
      if c.DeleteConnection? {
        UnlinkWellFormed(nodes, rank, c.node);
      } else if c.DeleteObject? {
        DetachWellFormed(nodes, rank, c.node);
      } else {
        WithAttrsWellFormed(nodes, rank, c.node, Update(nodes[c.node].attrs, c));
      }
    }
  }

  /** The graph with the property list of `x` replaced. */
  function WithBag(nodes: Nodes, x: NodeId, ps: Bag): Nodes
    requires x in nodes
  {
    nodes[x := nodes[x].(attrs := nodes[x].attrs.(properties := ps))]
  }

  /** The three property commands, in terms of the property list they leave. */
  lemma ApplyPropertyCommand(nodes: Nodes, c: Command)
    requires c.node in nodes && (c.AddProperty? || c.SetPropertyValue? || c.RemoveProperties?)
    ensures var ps := nodes[c.node].attrs.properties;
            Apply(nodes, c) == WithBag(nodes, c.node,
              match c
              case AddProperty(_, k, v) => ps + [Property(k, v)]
              case SetPropertyValue(_, i, v) => if i < |ps| then ps[i := ps[i].(value := v)] else ps
              case RemoveProperties(_, ix) => RemoveIndices(ps, ix))
  {
  }

  /** Two graphs with the same nodes, each of the same type, capabilities
      and concept. */
  ghost predicate SameKinds(a: Nodes, b: Nodes) {
    && a.Keys == b.Keys
    && forall x :: x in a ==> b[x].ifaces == a[x].ifaces && b[x].caps == a[x].caps && b[x].concept == a[x].concept
  }

  /** No command changes what a node is. */
  lemma ApplySameKinds(nodes: Nodes, c: Command)
    ensures SameKinds(nodes, Apply(nodes, c))
  {
  }

  lemma {:induction false} ApplyAllSameKinds(nodes: Nodes, cs: seq<Command>)
    ensures SameKinds(nodes, ApplyAll(nodes, cs))
    decreases |cs|
  {
    if cs != [] {
      ApplySameKinds(nodes, cs[0]);
      ApplyAllSameKinds(Apply(nodes, cs[0]), cs[1..]);
    }
  }

  /** Running a single command is applying it. */
  lemma ApplyAllOne(nodes: Nodes, c: Command)
    ensures ApplyAll(nodes, [c]) == Apply(nodes, c)
  {
    assert [c][1..] == [];
  }

  /** Running `x` then `y` is running `x + y`. */
  lemma {:induction false} ApplyAllAppend(nodes: Nodes, x: seq<Command>, y: seq<Command>)
    ensures ApplyAll(nodes, x + y) == ApplyAll(ApplyAll(nodes, x), y)
    decreases |x|
  {
    if x != [] {
      assert (x + y)[0] == x[0] && (x + y)[1..] == x[1..] + y;
      ApplyAllAppend(Apply(nodes, x[0]), x[1..], y);
    } else {
      assert x + y == y;
    }
  }

  lemma {:induction false} ApplyAllWellFormed(nodes: Nodes, rank: map<NodeId, nat>, cs: seq<Command>)
    requires WellFormed(nodes, rank)
    ensures WellFormed(ApplyAll(nodes, cs), rank)
    decreases |cs|
  {
    if cs != [] {
      ApplyWellFormed(nodes, rank, cs[0]);
      ApplyAllWellFormed(Apply(nodes, cs[0]), rank, cs[1..]);
    }
  }

  // ---------------------------------------------------------------------------
  // The document

  /** One open model: its object graph and the commands executed on it.
      Collaborators whose code is not part of this model are fixed at
      construction: the preference defaults for new figure sizes, the colour
      syntax check and the kebab-case spelling of a class name. */
  class Document {
    var nodes: Nodes
    var log: seq<Command>
    ghost var rank: map<NodeId, nat>
    const defaultWidth: int
    const defaultHeight: int
    const validColor: string -> bool
    const kebabCase: string -> string

    ghost predicate Valid()
      reads this
    {
      WellFormed(nodes, rank)
    }

    constructor (nodes0: Nodes, ghost rank0: map<NodeId, nat>, width: int, height: int,
                 color: string -> bool, kebab: string -> string)
      requires WellFormed(nodes0, rank0)
      ensures Valid()
      ensures nodes == nodes0 && log == [] && rank == rank0
      ensures defaultWidth == width && defaultHeight == height
      ensures validColor == color && kebabCase == kebab
    {
      nodes := nodes0;
      log := [];
      rank := rank0;
      defaultWidth := width;
      defaultHeight := height;
      validColor := color;
      kebabCase := kebab;
    }

    /** `CommandHandler.executeCommand`: apply the command and record it. */
    method Execute(c: Command)
      requires Valid()
      modifies this
      ensures Valid()
      ensures nodes == Apply(old(nodes), c)
      ensures log == old(log) + [c]
      ensures rank == old(rank)
      ensures SameKinds(old(nodes), nodes)
    {
      ApplyWellFormed(nodes, rank, c);
      ApplySameKinds(nodes, c);
      nodes := Apply(nodes, c);
      log := log + [c];
    }
  }
}
