/**
 * The specialization of an ArchiMate concept. A model declares
 * specializations as (name, concept type) pairs; a concept proxy can take
 * one of the names declared for its own type, and can be cleared again. The
 * concept type of a concept is the kebab-case spelling of its class name.
 */
module ArchimateConceptProxies {
  import opened Wrappers
  import opened Graph
  import opened Commands
  import opened ProxyFactory
  import opened ScriptValues
  import opened EObjectProxies

  // ---------------------------------------------------------------------------
  // The rule

  /** The first declaration of `ps` with this name and this concept type. */
  function FindProfile(ps: seq<Profile>, name: string, conceptType: string): (r: Option<nat>)
    ensures r.Some? ==> r.value < |ps| && ps[r.value] == Profile(name, conceptType)
    ensures r.Some? ==> forall j :: 0 <= j < r.value ==> ps[j] != Profile(name, conceptType)
    ensures r.None? <==> Profile(name, conceptType) !in ps
    decreases |ps|
  {
    if ps == [] then None
    else if ps[0] == Profile(name, conceptType) then Some(0)
    else
      var rest := FindProfile(ps[1..], name, conceptType);
      assert ps == [ps[0]] + ps[1..];
      if rest.None? then None else Some(rest.value + 1)
  }

  /** Some declaration of `ps` carries this name, whatever its type. */
  predicate NameDeclared(ps: seq<Profile>, name: string) {
    exists p :: p in ps && p.name == name
  }

  /** What `setSpecialization(name)` does for a concept of type
      `conceptType` in a model declaring `ps`: null clears; the empty name,
      a name nobody declared, and a name declared only for other types are
      refused; any other name is taken. */
  function SpecializationRule(ps: seq<Profile>, conceptType: string, name: Option<string>): (r: Result<Option<string>, ScriptError>)
    ensures r.Success? <==> name.None? || (name.value != "" && Profile(name.value, conceptType) in ps)
    ensures r.Success? ==> r.value == name
    ensures name == Some("") ==> r == Failure(InvalidArgument)
    ensures name.Some? && name.value != "" && !NameDeclared(ps, name.value) ==> r == Failure(NotFound)
    ensures name.Some? && name.value != "" && NameDeclared(ps, name.value) && Profile(name.value, conceptType) !in ps
            ==> r == Failure(TypeMismatch)
  {
    if name.None? then Success(None)
    else if name.value == "" then Failure(InvalidArgument)
    else if FindProfile(ps, name.value, conceptType).Some? then Success(name)
    else if NameDeclared(ps, name.value) then Failure(TypeMismatch)
    else Failure(NotFound)
  }

  /** Declaring a name for a type makes the rule take it for that type, and
      for no other type unless declared for it too. */
  lemma DeclareThenSet(ps: seq<Profile>, name: string, t: string, u: string)
    requires name != ""
    ensures SpecializationRule(ps + [Profile(name, t)], t, Some(name)) == Success(Some(name))
    ensures u != t && Profile(name, u) !in ps ==>
              SpecializationRule(ps + [Profile(name, t)], u, Some(name)) == Failure(TypeMismatch)
  {
    var qs := ps + [Profile(name, t)];
    assert qs[|ps|] == Profile(name, t);
    assert Profile(name, t) in qs;
    if u != t && Profile(name, u) !in ps {
      assert forall p :: p in qs ==> p in ps || p == Profile(name, t);
    }
  }

  // ---------------------------------------------------------------------------
  // The graph under attribute commands

  /** Two graphs with the same nodes, with the same types and containers. */
  ghost predicate SameContainers(a: Nodes, b: Nodes) {
    a.Keys == b.Keys && forall x :: x in a ==> b[x].ifaces == a[x].ifaces && b[x].links.container == a[x].links.container
  }

  /** An attribute command keeps the types and the links of every node. */
  lemma AttributeCommandKeepsStructure(nodes: Nodes, c: Command)
    requires !IsStructural(c)
    ensures SameContainers(nodes, Apply(nodes, c))
  {
  }

  /** The enclosing model depends on the types and containment alone. */
  lemma {:induction false} EnclosingModelOfSameContainers(a: Nodes, b: Nodes, rank: map<NodeId, nat>, o: Option<NodeId>)
    requires WellFormed(a, rank) && WellFormed(b, rank) && SameContainers(a, b)
    ensures EnclosingModel(b, rank, o) == EnclosingModel(a, rank, o)
    decreases if o.Some? && o.value in rank then rank[o.value] + 1 else 0
  {
    if o.Some? && o.value in a {
      var x := o.value;
      assert x in b && b[x].ifaces == a[x].ifaces && b[x].links.container == a[x].links.container;
      if ArchimateModel !in a[x].ifaces {
        assert UpLinkOk(a, rank, x);
        EnclosingModelOfSameContainers(a, b, rank, a[x].links.container);
        assert EnclosingModel(b, rank, o) == EnclosingModel(b, rank, b[x].links.container);
      }
    } else {
      assert o.None? || o.value !in b;
    }
  }

  /** The specializations declared by the model `x` lies in; none outside a model. */
  function ProfilesOf(nodes: Nodes, ghost rank: map<NodeId, nat>, x: NodeId): seq<Profile>
    requires WellFormed(nodes, rank)
  {
    var m := EnclosingModel(nodes, rank, Some(x));
    if m.Some? && m.value in nodes then nodes[m.value].attrs.profiles else []
  }

  /** Two graphs with the same nodes, each declaring the same specializations. */
  ghost predicate SameProfiles(a: Nodes, b: Nodes) {
    a.Keys == b.Keys && forall x :: x in a ==> b[x].attrs.profiles == a[x].attrs.profiles
  }

  /** The rule reads the same declarations in two graphs that agree on
      containment and on the declarations. */
  lemma ProfilesOfSame(a: Nodes, b: Nodes, rank: map<NodeId, nat>, x: NodeId)
    requires WellFormed(a, rank) && WellFormed(b, rank) && SameContainers(a, b) && SameProfiles(a, b)
    ensures ProfilesOf(b, rank, x) == ProfilesOf(a, rank, x)
  {
    EnclosingModelOfSameContainers(a, b, rank, Some(x));
  }

  /** The command of `setSpecialization` changes the specialization of `x`
      and no declaration. */
  lemma SpecializationCommand(n0: Nodes, x: NodeId, name: Option<string>)
    requires x in n0
    ensures var n1 := Apply(n0, SetSpecialization(x, name));
            && SameProfiles(n0, n1) && SameContainers(n0, n1)
            && n1[x].attrs.specialization == name && n1[x].attrs.typeTag == n0[x].attrs.typeTag
  {
  }

  /** Setting the specialization of `x` changes that and nothing the rule reads. */
  lemma SpecializationWrite(n0: Nodes, rank: map<NodeId, nat>, x: NodeId, name: Option<string>)
    requires WellFormed(n0, rank) && x in n0
    ensures var n1 := Apply(n0, SetSpecialization(x, name));
            && WellFormed(n1, rank)
            && n1[x].attrs.specialization == name && n1[x].attrs.typeTag == n0[x].attrs.typeTag
            && ProfilesOf(n1, rank, x) == ProfilesOf(n0, rank, x)
  {
    var c := SetSpecialization(x, name);
    SpecializationCommand(n0, x, name);
    ApplyWellFormed(n0, rank, c);
    ProfilesOfSame(n0, Apply(n0, c), rank, x);
  }

  /** Declaring a specialization in the model of `x` appends it to what the
      rule reads for `x`, and changes nothing else of `x`. */
  lemma ProfileAdded(n0: Nodes, rank: map<NodeId, nat>, x: NodeId, model: NodeId, p: Profile)
    requires WellFormed(n0, rank) && x in n0 && model in n0 && EnclosingModel(n0, rank, Some(x)) == Some(model)
    ensures var n1 := Apply(n0, AddProfile(model, p));
            && WellFormed(n1, rank) && EnclosingModel(n1, rank, Some(x)) == Some(model)
            && n1[x].attrs.specialization == n0[x].attrs.specialization && n1[x].attrs.typeTag == n0[x].attrs.typeTag
            && ProfilesOf(n1, rank, x) == ProfilesOf(n0, rank, x) + [p]
  {
    var c := AddProfile(model, p);
    AttributeCommandKeepsStructure(n0, c);
    ApplyWellFormed(n0, rank, c);
    EnclosingModelOfSameContainers(n0, Apply(n0, c), rank, Some(x));
  }

  /** `createSpecialization(name, conceptType, image)` of the model proxy:
      one command that appends the declaration to the model's list. */
  method CreateSpecialization(doc: Document, model: NodeId, name: string, conceptType: string)
    requires doc.Valid() && IsModel(doc.nodes, model)
    modifies doc
    ensures doc.Valid() && doc.rank == old(doc.rank)
    ensures doc.nodes == Apply(old(doc.nodes), AddProfile(model, Profile(name, conceptType)))
    ensures doc.log == old(doc.log) + [AddProfile(model, Profile(name, conceptType))]
    ensures doc.nodes[model].attrs.profiles == old(doc.nodes[model].attrs.profiles) + [Profile(name, conceptType)]
    ensures SameKinds(old(doc.nodes), doc.nodes)
  {
    doc.Execute(AddProfile(model, Profile(name, conceptType)));
  }

  // ---------------------------------------------------------------------------
  // The proxy

  class ArchimateConceptProxy {
    /** The base-proxy part of this object. */
    const base: EObjectProxy
    const doc: Document
    const node: NodeId

    ghost predicate Valid()
      reads doc
    {
      && base.doc == doc && base.node == Some(node)
      && (base.kind == ElementKind || base.kind == RelationshipKind)
      && base.Valid()
    }

    constructor (p: EObjectProxy, n: NodeId)
      requires p.node == Some(n)
      ensures base == p && doc == p.doc && node == n
    {
      base := p;
      doc := p.doc;
      node := n;
    }

    /** `getConcept()`: a concept proxy is its own concept. */
    method GetConcept() returns (r: ArchimateConceptProxy)
      ensures r == this
    {
      r := this;
    }

    /** The type a specialization must be declared for to fit this concept. */
    function ConceptType(): string
      requires Valid()
      reads doc
    {
      doc.kebabCase(doc.nodes[node].attrs.typeTag)
    }

    /** The model the concept lies in (`getModel`), if any. */
    function ModelNode(): Option<NodeId>
      requires Valid()
      reads doc
    {
      EnclosingModel(doc.nodes, doc.rank, Some(node))
    }

    /** The specializations that model declares; none outside a model. */
    function Profiles(): seq<Profile>
      requires Valid()
      reads doc
    {
      ProfilesOf(doc.nodes, doc.rank, node)
    }

    /** `getSpecialization()`: the name taken, or null. */
    function GetSpecialization(): Option<string>
      requires Valid()
      reads doc
    {
      doc.nodes[node].attrs.specialization
    }

    /** `setSpecialization(name)`: one command when the rule takes the name;
        a refused name throws before any write. */
    method SetSpecialization(name: Option<string>) returns (r: Result<ArchimateConceptProxy, ScriptError>)
      requires Valid()
      modifies doc
      ensures Valid() && doc.rank == old(doc.rank)
      ensures var rule := old(SpecializationRule(Profiles(), ConceptType(), name));
              && (r.Failure? <==> rule.Failure?)
              && (r.Failure? ==> r.error == rule.error && doc.nodes == old(doc.nodes) && doc.log == old(doc.log))
      ensures r.Success? ==>
                && r.value == this && GetSpecialization() == name
                && Profiles() == old(Profiles()) && ConceptType() == old(ConceptType())
                && doc.nodes == Apply(old(doc.nodes), Commands.SetSpecialization(node, name))
                && doc.log == old(doc.log) + [Commands.SetSpecialization(node, name)]
    {
      var rule := SpecializationRule(Profiles(), ConceptType(), name);
      if rule.Failure? {
        return Failure(rule.error);
      }
      SpecializationWrite(doc.nodes, doc.rank, node, name);
      doc.Execute(Commands.SetSpecialization(node, name));
      r := Success(this);
    }
  }

  // ---------------------------------------------------------------------------
  // The scenarios of the concept proxy tests

  /** A concept in a model whose specialization is not set, as the tests
      start from. */
  ghost predicate Fresh(c: ArchimateConceptProxy)
    reads c.doc
  {
    c.Valid() && c.GetSpecialization().None? && c.ModelNode().Some? && IsModel(c.doc.nodes, c.ModelNode().value)
  }

  /** Declare "Special" for the concept's own type, set it and read it back,
      then clear it with null. */
  method DeclareSetAndClear(c: ArchimateConceptProxy) returns (afterSet: Option<string>, afterClear: Option<string>)
    requires Fresh(c)
    modifies c.doc
    ensures c.Valid() && afterSet == Some("Special") && afterClear == None
  {
    var m := c.ModelNode().value;
    Declare(c, m, c.ConceptType());
    DeclareThenSet(old(c.Profiles()), "Special", c.ConceptType(), c.ConceptType());
    var r := c.SetSpecialization(Some("Special"));
    afterSet := c.GetSpecialization();
    r := c.SetSpecialization(None);
    afterClear := c.GetSpecialization();
  }

  /** `getModel().createSpecialization("Special", conceptType, null)` in a
      test: the concept stays as it was and its model now declares the name. */
  method Declare(c: ArchimateConceptProxy, m: NodeId, conceptType: string)
    requires c.Valid() && c.ModelNode() == Some(m) && IsModel(c.doc.nodes, m)
    modifies c.doc
    ensures c.Valid() && c.ModelNode() == Some(m)
    ensures c.Profiles() == old(c.Profiles()) + [Profile("Special", conceptType)]
    ensures c.GetSpecialization() == old(c.GetSpecialization()) && c.ConceptType() == old(c.ConceptType())
  {
    ProfileAdded(c.doc.nodes, c.doc.rank, c.node, m, Profile("Special", conceptType));
    CreateSpecialization(c.doc, m, "Special", conceptType);
  }

  /** "Special" declared only for the type "node" is refused for a concept of
      another type. */
  method DeclaredForOtherType(c: ArchimateConceptProxy) returns (r: Result<ArchimateConceptProxy, ScriptError>)
    requires Fresh(c) && c.Profiles() == [] && c.ConceptType() != "node"
    modifies c.doc
    ensures c.Valid() && r.Failure? && c.GetSpecialization().None?
  {
    var m := c.ModelNode().value;
    Declare(c, m, "node");
    DeclareThenSet([], "Special", "node", c.ConceptType());
    r := c.SetSpecialization(Some("Special"));
  }

  /** A name nobody declared is refused. */
  method Undeclared(c: ArchimateConceptProxy) returns (r: Result<ArchimateConceptProxy, ScriptError>)
    requires Fresh(c) && c.Profiles() == []
    modifies c.doc
    ensures c.Valid() && r.Failure? && c.GetSpecialization().None?
  {
    r := c.SetSpecialization(Some("Special"));
  }

  /** The empty name is refused, whatever the model declares: it does not
      clear. */
  method EmptyName(c: ArchimateConceptProxy) returns (r: Result<ArchimateConceptProxy, ScriptError>)
    requires c.Valid()
    modifies c.doc
    ensures r.Failure? && r.error == InvalidArgument
    ensures c.doc.nodes == old(c.doc.nodes)
  {
    r := c.SetSpecialization(Some(""));
  }

  /** `getConcept()` gives back the very proxy it is called on. */
  method SameConcept(c: ArchimateConceptProxy) returns (same: bool)
    ensures same
  {
    var d := c.GetConcept();
    same := d == c;
  }
}
