/**
 * `EObjectProxy.get`: which kind of proxy wraps a model object. The
 * interfaces are tried in a fixed order and the first one the object
 * implements decides; an object implementing none of them has no proxy.
 */
module ProxyFactory {
  import opened Wrappers
  import opened Graph

  datatype ProxyKind =
    | ModelKind | ElementKind | RelationshipKind | DiagramModelKind
    | DiagramObjectKind | ConnectionKind | FolderKind

  /** The order in which `get` tests the interfaces. */
  const Priority: seq<ProxyKind> :=
    [ModelKind, ElementKind, RelationshipKind, DiagramModelKind, DiagramObjectKind, ConnectionKind, FolderKind]

  /** The interface a proxy kind stands for. */
  function Interface(k: ProxyKind): Iface {
    match k
    case ModelKind => ArchimateModel
    case ElementKind => ArchimateElement
    case RelationshipKind => ArchimateRelationship
    case DiagramModelKind => DiagramModel
    case DiagramObjectKind => DiagramModelObject
    case ConnectionKind => DiagramModelConnection
    case FolderKind => Folder
  }

  /** The kind of proxy for an object of the given type: the first in
      `Priority` whose interface the type implements, or none. */
  function KindFor(ifaces: set<Iface>): Option<ProxyKind> {
    if ArchimateModel in ifaces then Some(ModelKind)
    else if ArchimateElement in ifaces then Some(ElementKind)
    else if ArchimateRelationship in ifaces then Some(RelationshipKind)
    else if DiagramModel in ifaces then Some(DiagramModelKind)
    else if DiagramModelObject in ifaces then Some(DiagramObjectKind)
    else if DiagramModelConnection in ifaces then Some(ConnectionKind)
    else if Folder in ifaces then Some(FolderKind)
    else None
  }

  /** A type has a proxy exactly when it implements one of the interfaces,
      and then the proxy is for the first of them in `Priority`. */
  lemma KindForFirstMatch(ifaces: set<Iface>)
    ensures KindFor(ifaces).None? <==> forall i :: 0 <= i < |Priority| ==> Interface(Priority[i]) !in ifaces
    ensures KindFor(ifaces).Some? ==>
              exists i :: 0 <= i < |Priority| && Priority[i] == KindFor(ifaces).value
                          && Interface(Priority[i]) in ifaces
                          && forall j :: 0 <= j < i ==> Interface(Priority[j]) !in ifaces
  {
    var r := KindFor(ifaces);
    assert Priority[0] == ModelKind && Priority[1] == ElementKind && Priority[2] == RelationshipKind;
    assert Priority[3] == DiagramModelKind && Priority[4] == DiagramObjectKind;
    assert Priority[5] == ConnectionKind && Priority[6] == FolderKind;
    if r.Some? {
      var i :| 0 <= i < |Priority| && Priority[i] == r.value;
      assert Interface(Priority[i]) in ifaces;
    }
  }

  /** In a well-formed graph every diagram object gets a diagram object proxy. */
  lemma DiagramObjectKindFor(nodes: Nodes, rank: map<NodeId, nat>, x: NodeId)
    requires WellFormed(nodes, rank) && x in nodes && DiagramModelObject in nodes[x].ifaces
    ensures KindFor(nodes[x].ifaces) == Some(DiagramObjectKind)
  {
    assert KindOk(nodes, x);
  }
}
