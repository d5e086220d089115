/**
 * The in-memory object graph the proxies wrap: EMF-like nodes with a type
 * (the set of model interfaces their class implements), a containment
 * parent, contained children, diagram connection lists and typed attributes.
 *
 * Nodes are named by `NodeId`; object identity of an `EObject` is identity of
 * its id. A ghost `rank` orders the containment relation (a container has a
 * smaller rank than what it contains), which makes containment acyclic and
 * gives the upward and downward walks their termination measure.
 */
module Graph {
  import opened Wrappers

  type NodeId = nat

  /** Model interfaces checked with `instanceof` by the proxies. */
  datatype Iface =
    | ArchimateModel | ArchimateElement | ArchimateRelationship | DiagramModel
    | DiagramModelObject | DiagramModelConnection | Folder
    | Properties | Documentable | Nameable | Identifier
    | DiagramModelContainer | DiagramModelArchimateObject | TextPosition | Iconic | ImageProvider

  /** Features whose exposure `ModelUtil.shouldExposeFeature` decides. */
  datatype Feature = GradientFeature | ImageSourceFeature | ImagePathFeature

  /** Facts owned by collaborators outside this model: which features are
      exposed for the node, whether its UI provider has an icon, and whether
      the UI provider of its class has an alternate figure. */
  datatype Caps = Caps(exposed: set<Feature>, hasIcon: bool, hasAlternateFigure: bool)

  datatype Property = Property(key: string, value: string)

  /** A declared specialization: its name and the concept type it is for. */
  datatype Profile = Profile(name: string, conceptType: string)

  datatype Bounds = Bounds(x: int, y: int, width: int, height: int)

  /** The attributes the proxies read and write. */
  datatype Attrs = Attrs(
    id: string,
    name: Option<string>,
    documentation: Option<string>,
    typeTag: string,
    properties: seq<Property>,
    specialization: Option<string>,
    profiles: seq<Profile>,
    images: set<string>,
    bounds: Bounds,
    fillColor: Option<string>,
    alpha: int,
    lineAlpha: int,
    gradient: int,
    figureType: int,
    textAlignment: int,
    textPosition: int,
    iconVisible: int,
    imageSource: int,
    imagePosition: int,
    imagePath: Option<string>)

  /** Containment (`eContainer`, `eContents`) and the ids of the diagram
      connections ending at (`inRels`) and starting from (`outRels`) a node. */
  datatype Links = Links(
    container: Option<NodeId>,
    contents: seq<NodeId>,
    inRels: seq<NodeId>,
    outRels: seq<NodeId>)

  /** `concept` is the ArchiMate concept a diagram component stands for. */
  datatype NodeData = NodeData(
    ifaces: set<Iface>,
    caps: Caps,
    concept: Option<NodeId>,
    links: Links,
    attrs: Attrs)

  type Nodes = map<NodeId, NodeData>

  // ---------------------------------------------------------------------------
  // Sequences of ids

  predicate NoDup(s: seq<NodeId>) {
    forall i, j :: 0 <= i < j < |s| ==> s[i] != s[j]
  }

  /** `s` without any occurrence of `x`. */
  function Remove(s: seq<NodeId>, x: NodeId): (r: seq<NodeId>)
    ensures forall y :: y in r <==> y in s && y != x
    ensures NoDup(s) ==> NoDup(r)
  {
    if s == [] then []
    else
      var rest := Remove(s[1..], x);
      assert forall y :: y in s[1..] ==> y in s;
      assert NoDup(s) ==> NoDup(s[1..]) && s[0] !in s[1..];
      if s[0] == x then rest else [s[0]] + rest
  }

  /** `s` without any element of `d`, order kept. */
  function WithoutAll(s: seq<NodeId>, d: seq<NodeId>): (r: seq<NodeId>)
    ensures forall y :: y in r <==> y in s && y !in d
  {
    if s == [] then []
    else
      var rest := WithoutAll(s[1..], d);
      assert forall y :: y in s[1..] ==> y in s;
      assert s == [s[0]] + s[1..];
      if s[0] in d then rest else [s[0]] + rest
  }

  lemma {:induction false} WithoutAllSnoc(s: seq<NodeId>, d: seq<NodeId>, x: NodeId)
    ensures WithoutAll(s, d + [x]) == Remove(WithoutAll(s, d), x)
  {
    if s != [] {
      WithoutAllSnoc(s[1..], d, x);
    }
  }

  lemma WithoutAllNil(s: seq<NodeId>)
    ensures WithoutAll(s, []) == s
  {
  }

  // ---------------------------------------------------------------------------
  // Well-formedness of the containment structure

  ghost predicate UpLinkOk(nodes: Nodes, rank: map<NodeId, nat>, x: NodeId)
    requires x in nodes
  {
    var c := nodes[x].links.container;
    c.Some? ==>
      && c.value in nodes && c.value in rank && x in rank
      && rank[c.value] < rank[x]
      && x in nodes[c.value].links.contents
  }

  ghost predicate DownLinksOk(nodes: Nodes, p: NodeId)
    requires p in nodes
  {
    var cs := nodes[p].links.contents;
    && NoDup(cs)
    && forall c :: c in cs ==> c in nodes && nodes[c].links.container == Some(p)
  }

  /** A diagram object is none of the kinds the proxy factory tries before it,
      and an ArchiMate diagram object stands for a concept of the graph. */
  ghost predicate KindOk(nodes: Nodes, x: NodeId)
    requires x in nodes
  {
    var f := nodes[x].ifaces;
    && (DiagramModelObject in f ==>
          ArchimateModel !in f && ArchimateElement !in f
          && ArchimateRelationship !in f && DiagramModel !in f)
    && (DiagramModelArchimateObject in f ==> DiagramModelObject in f && nodes[x].concept.Some?)
    && (nodes[x].concept.Some? ==> nodes[x].concept.value in nodes)
  }

  /** The connections at a node are nodes of the graph. */
  ghost predicate RelsOk(nodes: Nodes, x: NodeId)
    requires x in nodes
  {
    && (forall r :: r in nodes[x].links.inRels ==> r in nodes)
    && (forall r :: r in nodes[x].links.outRels ==> r in nodes)
  }

  ghost predicate WellFormed(nodes: Nodes, rank: map<NodeId, nat>) {
    && nodes.Keys == rank.Keys
    && (forall x :: x in rank ==> rank[x] < |rank|)
    && (forall x :: x in nodes ==> UpLinkOk(nodes, rank, x))
    && (forall p :: p in nodes ==> DownLinksOk(nodes, p))
    && (forall x :: x in nodes ==> KindOk(nodes, x))
    && (forall x :: x in nodes ==> RelsOk(nodes, x))
  }

  /** Two graphs with the same nodes, types, containment and concept links,
      where connection lists may only have lost entries. */
  ghost predicate SameStructure(a: Nodes, b: Nodes) {
    && a.Keys == b.Keys
    && forall x :: x in a ==>
         && b[x].ifaces == a[x].ifaces
         && b[x].concept == a[x].concept
         && b[x].links.container == a[x].links.container
         && b[x].links.contents == a[x].links.contents
         && (forall r :: r in b[x].links.inRels ==> r in a[x].links.inRels)
         && (forall r :: r in b[x].links.outRels ==> r in a[x].links.outRels)
  }

  lemma SameStructureWellFormed(a: Nodes, b: Nodes, rank: map<NodeId, nat>)
    requires WellFormed(a, rank) && SameStructure(a, b)
    ensures WellFormed(b, rank)
  {
    forall x | x in b ensures RelsOk(b, x) {
      assert RelsOk(a, x);
    }
    forall x | x in b ensures UpLinkOk(b, rank, x) {
      assert UpLinkOk(a, rank, x);
    }
    forall p | p in b ensures DownLinksOk(b, p) {
      assert DownLinksOk(a, p);
    }
    forall x | x in b ensures KindOk(b, x) {
      assert KindOk(a, x);
    }
  }

  // ---------------------------------------------------------------------------
  // The upward walk

  /** The ancestor-or-self chain of `o`, innermost first, up to the node
      without a container. */
  function Chain(nodes: Nodes, ghost rank: map<NodeId, nat>, o: Option<NodeId>): (r: seq<NodeId>)
    requires WellFormed(nodes, rank)
    ensures forall y :: y in r ==> y in nodes
    ensures o.Some? && o.value in nodes ==> r != [] && r[0] == o.value
    decreases if o.Some? && o.value in rank then rank[o.value] + 1 else 0
  {
    if o.None? || o.value !in nodes then []
    else
      assert UpLinkOk(nodes, rank, o.value);
      [o.value] + Chain(nodes, rank, nodes[o.value].links.container)
  }

  /** Nearest ancestor-or-self of model type (the loop in `getArchimateModel`). */
  function EnclosingModel(nodes: Nodes, ghost rank: map<NodeId, nat>, o: Option<NodeId>): Option<NodeId>
    requires WellFormed(nodes, rank)
    decreases if o.Some? && o.value in rank then rank[o.value] + 1 else 0
  {
    if o.None? || o.value !in nodes then None
    else if ArchimateModel in nodes[o.value].ifaces then o
    else
      assert UpLinkOk(nodes, rank, o.value);
      EnclosingModel(nodes, rank, nodes[o.value].links.container)
  }

  predicate IsModel(nodes: Nodes, x: NodeId) {
    x in nodes && ArchimateModel in nodes[x].ifaces
  }

  /** No node of `s` is of model type. */
  predicate NoModelIn(nodes: Nodes, s: seq<NodeId>) {
    forall y :: y in s ==> !IsModel(nodes, y)
  }

  /** There is no enclosing model exactly when no node of the chain is a model. */
  lemma {:induction false} EnclosingModelNone(nodes: Nodes, rank: map<NodeId, nat>, o: Option<NodeId>)
    requires WellFormed(nodes, rank)
    ensures EnclosingModel(nodes, rank, o).None? <==> NoModelIn(nodes, Chain(nodes, rank, o))
    decreases if o.Some? && o.value in rank then rank[o.value] + 1 else 0
  {
    if o.Some? && o.value in nodes && !IsModel(nodes, o.value) {
      assert UpLinkOk(nodes, rank, o.value);
      var up := nodes[o.value].links.container;
      EnclosingModelNone(nodes, rank, up);
      assert Chain(nodes, rank, o) == [o.value] + Chain(nodes, rank, up);
    }
  }

  /** The enclosing model, when there is one, is the first model-typed node
      of the chain. */
  lemma {:induction false} EnclosingModelFirst(nodes: Nodes, rank: map<NodeId, nat>, o: Option<NodeId>)
    requires WellFormed(nodes, rank)
    requires EnclosingModel(nodes, rank, o).Some?
    ensures exists i :: 0 <= i < |Chain(nodes, rank, o)| && Chain(nodes, rank, o)[i] == EnclosingModel(nodes, rank, o).value
                        && IsModel(nodes, Chain(nodes, rank, o)[i]) && NoModelIn(nodes, Chain(nodes, rank, o)[..i])
    decreases if o.Some? && o.value in rank then rank[o.value] + 1 else 0
  {
    var c := Chain(nodes, rank, o);
    if IsModel(nodes, o.value) {
      assert c[0] == o.value && c[..0] == [];
      assert NoModelIn(nodes, c[..0]);
      assert EnclosingModel(nodes, rank, o).value == c[0];
    } else {
      assert UpLinkOk(nodes, rank, o.value);
      var up := nodes[o.value].links.container;
      EnclosingModelFirst(nodes, rank, up);
      var c' := Chain(nodes, rank, up);
      assert c == [o.value] + c';
      var i :| 0 <= i < |c'| && c'[i] == EnclosingModel(nodes, rank, up).value
               && IsModel(nodes, c'[i]) && NoModelIn(nodes, c'[..i]);
      assert c[i + 1] == c'[i];
      assert c[..i + 1] == [o.value] + c'[..i];
    }
  }

  /** Every node of a chain ranks at most the start of the chain. */
  lemma {:induction false} ChainRanks(nodes: Nodes, rank: map<NodeId, nat>, x: NodeId)
    requires WellFormed(nodes, rank) && x in nodes
    ensures forall y :: y in Chain(nodes, rank, Some(x)) ==> y in rank && rank[y] <= rank[x]
    decreases rank[x]
  {
    assert UpLinkOk(nodes, rank, x);
    var up := nodes[x].links.container;
    if up.Some? {
      ChainRanks(nodes, rank, up.value);
    }
  }

  /** Being an ancestor is transitive. */
  lemma {:induction false} ChainTrans(nodes: Nodes, rank: map<NodeId, nat>, x: NodeId, y: NodeId, z: NodeId)
    requires WellFormed(nodes, rank) && x in nodes
    requires y in Chain(nodes, rank, Some(x)) && z in Chain(nodes, rank, Some(y))
    ensures z in Chain(nodes, rank, Some(x))
    decreases rank[x]
  {
    if y != x {
      assert UpLinkOk(nodes, rank, x);
      var up := nodes[x].links.container;
      ChainTrans(nodes, rank, up.value, y, z);
    }
  }

  /** The chain of `x` only depends on the containers along it. */
  lemma {:induction false} ChainFrame(a: Nodes, b: Nodes, rank: map<NodeId, nat>, x: NodeId)
    requires WellFormed(a, rank) && WellFormed(b, rank) && x in a && a.Keys == b.Keys
    requires forall y :: y in Chain(a, rank, Some(x)) ==> b[y].links.container == a[y].links.container
    ensures Chain(b, rank, Some(x)) == Chain(a, rank, Some(x))
    decreases rank[x]
  {
    assert UpLinkOk(a, rank, x);
    var up := a[x].links.container;
    if up.Some? {
      forall y | y in Chain(a, rank, up) ensures b[y].links.container == a[y].links.container {
        assert y in Chain(a, rank, Some(x));
      }
      ChainFrame(a, b, rank, up.value);
    }
  }

  // ---------------------------------------------------------------------------
  // The downward walk (`eAllContents`)

  /** All nodes contained in `n`, directly or not, in pre-order, `n` excluded. */
  function AllContents(nodes: Nodes, ghost rank: map<NodeId, nat>, n: NodeId): (r: seq<NodeId>)
    requires WellFormed(nodes, rank) && n in nodes
    decreases |rank| - rank[n], |nodes[n].links.contents| + 1
  {
    ContentsFrom(nodes, rank, n, 0)
  }

  function ContentsFrom(nodes: Nodes, ghost rank: map<NodeId, nat>, n: NodeId, i: nat): (r: seq<NodeId>)
    requires WellFormed(nodes, rank) && n in nodes && i <= |nodes[n].links.contents|
    decreases |rank| - rank[n], |nodes[n].links.contents| - i
  {
    var cs := nodes[n].links.contents;
    if i == |cs| then []
    else
      var c := cs[i];
      assert DownLinksOk(nodes, n) && c in cs;
      assert UpLinkOk(nodes, rank, c);
      [c] + AllContents(nodes, rank, c) + ContentsFrom(nodes, rank, n, i + 1)
  }

  /** Everything `eAllContents` yields is a proper descendant. */
  lemma {:induction false} AllContentsBelow(nodes: Nodes, rank: map<NodeId, nat>, n: NodeId, x: NodeId)
    requires WellFormed(nodes, rank) && n in nodes
    requires x in AllContents(nodes, rank, n)
    ensures x in nodes && x in rank && rank[n] < rank[x] && n in Chain(nodes, rank, Some(x))
    decreases |rank| - rank[n], |nodes[n].links.contents| + 1
  {
    ContentsFromBelow(nodes, rank, n, 0, x);
  }

  lemma {:induction false} ContentsFromBelow(nodes: Nodes, rank: map<NodeId, nat>, n: NodeId, i: nat, x: NodeId)
    requires WellFormed(nodes, rank) && n in nodes && i <= |nodes[n].links.contents|
    requires x in ContentsFrom(nodes, rank, n, i)
    ensures x in nodes && x in rank && rank[n] < rank[x] && n in Chain(nodes, rank, Some(x))
    decreases |rank| - rank[n], |nodes[n].links.contents| - i
  {
    var cs := nodes[n].links.contents;
    var c := cs[i];
    assert DownLinksOk(nodes, n) && c in cs;
    assert UpLinkOk(nodes, rank, c);
    assert Chain(nodes, rank, Some(c)) == [c] + Chain(nodes, rank, Some(n));
    if x == c {
    } else if x in AllContents(nodes, rank, c) {
      AllContentsBelow(nodes, rank, c, x);
      ChainTrans(nodes, rank, x, c, n);
    } else {
      ContentsFromBelow(nodes, rank, n, i + 1, x);
    }
  }

  /** Conversely, every proper descendant is yielded by `eAllContents`. */
  lemma {:induction false} DescendantInAllContents(nodes: Nodes, rank: map<NodeId, nat>, n: NodeId, x: NodeId)
    requires WellFormed(nodes, rank) && n in nodes && x in nodes && x != n
    requires n in Chain(nodes, rank, Some(x))
    ensures x in AllContents(nodes, rank, n)
    decreases rank[x]
  {
    assert UpLinkOk(nodes, rank, x);
    var p := nodes[x].links.container.value;
    if p == n {
      ContainedInContentsFrom(nodes, rank, n, 0, x);
    } else {
      DescendantInAllContents(nodes, rank, n, p);
      DescendantsClosed(nodes, rank, n, p, x);
    }
  }

  lemma {:induction false} ContainedInContentsFrom(nodes: Nodes, rank: map<NodeId, nat>, n: NodeId, i: nat, x: NodeId)
    requires WellFormed(nodes, rank) && n in nodes && i <= |nodes[n].links.contents|
    requires x in nodes[n].links.contents[i..]
    ensures x in ContentsFrom(nodes, rank, n, i)
    decreases |nodes[n].links.contents| - i
  {
    if nodes[n].links.contents[i] != x {
      ContainedInContentsFrom(nodes, rank, n, i + 1, x);
    }
  }

  /** A node contained in a descendant of `n` is itself a descendant of `n`. */
  lemma {:induction false} DescendantsClosed(nodes: Nodes, rank: map<NodeId, nat>, n: NodeId, p: NodeId, x: NodeId)
    requires WellFormed(nodes, rank) && n in nodes
    requires p in AllContents(nodes, rank, n) && x in nodes && nodes[x].links.container == Some(p)
    ensures x in AllContents(nodes, rank, n)
    decreases |rank| - rank[n], |nodes[n].links.contents| + 1
  {
    ContentsFromClosed(nodes, rank, n, 0, p, x);
  }

  lemma {:induction false} ContentsFromClosed(nodes: Nodes, rank: map<NodeId, nat>, n: NodeId, i: nat, p: NodeId, x: NodeId)
    requires WellFormed(nodes, rank) && n in nodes && i <= |nodes[n].links.contents|
    requires p in ContentsFrom(nodes, rank, n, i) && x in nodes && nodes[x].links.container == Some(p)
    ensures x in ContentsFrom(nodes, rank, n, i)
    decreases |rank| - rank[n], |nodes[n].links.contents| - i
  {
    var cs := nodes[n].links.contents;
    var c := cs[i];
    assert DownLinksOk(nodes, n) && c in cs;
    assert UpLinkOk(nodes, rank, c);
    assert UpLinkOk(nodes, rank, x);
    if p == c {
      ContainedInContentsFrom(nodes, rank, c, 0, x);
    } else if p in AllContents(nodes, rank, c) {
      DescendantsClosed(nodes, rank, c, p, x);
    } else {
      ContentsFromClosed(nodes, rank, n, i + 1, p, x);
    }
  }

  // ---------------------------------------------------------------------------
  // Diagram children

  /** The diagram objects among `s`, order kept. */
  function DiagramObjectsIn(nodes: Nodes, s: seq<NodeId>): (r: seq<NodeId>)
    ensures forall y :: y in r <==> y in s && y in nodes && DiagramModelObject in nodes[y].ifaces
    ensures NoDup(s) ==> NoDup(r)
  {
    if s == [] then []
    else
      var rest := DiagramObjectsIn(nodes, s[1..]);
      assert forall y :: y in s[1..] ==> y in s;
      assert s == [s[0]] + s[1..];
      if s[0] in nodes && DiagramModelObject in nodes[s[0]].ifaces then [s[0]] + rest else rest
  }

  /** `getChildren()` of a diagram container; nothing for other nodes. */
  function DiagramChildren(nodes: Nodes, n: NodeId): (r: seq<NodeId>)
    requires n in nodes
  {
    if DiagramModelContainer in nodes[n].ifaces then DiagramObjectsIn(nodes, nodes[n].links.contents) else []
  }
}
