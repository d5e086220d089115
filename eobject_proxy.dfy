/**
 * `EObjectProxy`: the script-side wrapper of one model object. It holds the
 * document and the wrapped node (none for a proxy whose object is null) and
 * carries the proxy kind chosen by the factory. Reads of the graph are
 * functions; every change is a command executed on the document.
 */
module EObjectProxies {
  import opened Wrappers
  import opened Graph
  import opened PropertyBag
  import opened Commands
  import opened ProxyFactory
  import opened ScriptValues

  /** What `prop(key, allowDuplicate)` returns: null, the first value, or the list of all values. */
  datatype PropResult = NoValue | FirstValue(value: string) | AllValues(values: seq<string>)

  /** The nodes of `s` that the factory can wrap, order kept. */
  function Proxied(nodes: Nodes, s: seq<NodeId>): (r: seq<NodeId>)
    ensures |r| <= |s|
  {
    if s == [] then []
    else
      var x := s[|s| - 1];
      Proxied(nodes, s[..|s| - 1]) + (if x in nodes && KindFor(nodes[x].ifaces).Some? then [x] else [])
  }

  lemma {:induction false} ProxiedMembership(nodes: Nodes, s: seq<NodeId>, x: NodeId)
    ensures x in Proxied(nodes, s) <==> x in s && x in nodes && KindFor(nodes[x].ifaces).Some?
  {
    if s != [] {
      ProxiedMembership(nodes, s[..|s| - 1], x);
      assert s == s[..|s| - 1] + [s[|s| - 1]];
    }
  }

  lemma ProxiedPrefix(nodes: Nodes, s: seq<NodeId>, i: nat)
    requires i < |s|
    ensures Proxied(nodes, s[..i + 1]) ==
              Proxied(nodes, s[..i]) + (if s[i] in nodes && KindFor(nodes[s[i]].ifaces).Some? then [s[i]] else [])
  {
    assert s[..i + 1][..i] == s[..i];
  }

  /** The UTF-16 code units Java stores for one character: the character
      itself below U+10000, otherwise its high and low surrogates. */
  function CodeUnits(c: char): (r: seq<int>)
    ensures |r| == 1 <==> (c as int) < 0x1_0000
    ensures |r| == 1 ==> r[0] == c as int && !(0xD800 <= r[0] < 0xE000)
    ensures |r| != 1 ==> |r| == 2 && 0xD800 <= r[0] < 0xDC00 && 0xDC00 <= r[1] < 0xE000
  {
    var v := c as int;
    if v < 0x1_0000 then [v]
    else [0xD800 + (v - 0x1_0000) / 0x400, 0xDC00 + (v - 0x1_0000) % 0x400]
  }

  /** Different characters have different code units. */
  lemma CodeUnitsInjective(a: char, b: char)
    requires CodeUnits(a) == CodeUnits(b)
    ensures a == b
  {
    var v, w := a as int, b as int;
    if 0x1_0000 <= v {
      assert v - 0x1_0000 == 0x400 * ((v - 0x1_0000) / 0x400) + (v - 0x1_0000) % 0x400;
      assert w - 0x1_0000 == 0x400 * ((w - 0x1_0000) / 0x400) + (w - 0x1_0000) % 0x400;
    }
  }

  /** A string as Java's UTF-16 code units. */
  function Utf16(s: string): (r: seq<int>)
    ensures s == [] <==> r == []
  {
    if s == [] then [] else CodeUnits(s[0]) + Utf16(s[1..])
  }

  /** Different strings have different code units. */
  lemma {:induction false} Utf16Injective(a: string, b: string)
    requires Utf16(a) == Utf16(b)
    ensures a == b
    decreases |a|
  {
    if a != [] {
      var ua, ub := CodeUnits(a[0]), CodeUnits(b[0]);
      assert Utf16(a)[0] == ua[0] && Utf16(b)[0] == ub[0];
      assert |ua| == |ub|;
      if |ua| == 2 {
        assert Utf16(a)[1] == ua[1] && Utf16(b)[1] == ub[1];
      }
      assert ua == ub;
      CodeUnitsInjective(a[0], b[0]);
      assert Utf16(a)[|ua|..] == Utf16(a[1..]);
      assert Utf16(b)[|ub|..] == Utf16(b[1..]);
      Utf16Injective(a[1..], b[1..]);
      assert a == [a[0]] + a[1..] && b == [b[0]] + b[1..];
    }
  }

  /** Lexicographic order of code-unit sequences: the difference of the first
      differing units, else the difference of the lengths. */
  function CompareUnits(a: seq<int>, b: seq<int>): int
    decreases |a|
  {
    if a == [] || b == [] then |a| - |b|
    else if a[0] != b[0] then a[0] - b[0]
    else CompareUnits(a[1..], b[1..])
  }

  lemma {:induction false} CompareUnitsZero(a: seq<int>, b: seq<int>)
    ensures CompareUnits(a, b) == 0 <==> a == b
    decreases |a|
  {
    if a != [] && b != [] && a[0] == b[0] {
      CompareUnitsZero(a[1..], b[1..]);
      assert a == [a[0]] + a[1..] && b == [b[0]] + b[1..];
    }
  }

  lemma {:induction false} CompareUnitsAntisymmetric(a: seq<int>, b: seq<int>)
    ensures CompareUnits(b, a) == -CompareUnits(a, b)
    decreases |a|
  {
    if a != [] && b != [] && a[0] == b[0] {
      CompareUnitsAntisymmetric(a[1..], b[1..]);
    }
  }

  /** `String.compareTo`, over the UTF-16 code units of both strings. */
  function StringCompare(a: string, b: string): int {
    CompareUnits(Utf16(a), Utf16(b))
  }

  lemma StringCompareZero(a: string, b: string)
    ensures StringCompare(a, b) == 0 <==> a == b
  {
    CompareUnitsZero(Utf16(a), Utf16(b));
    if Utf16(a) == Utf16(b) {
      Utf16Injective(a, b);
    }
  }

  lemma StringCompareAntisymmetric(a: string, b: string)
    ensures StringCompare(b, a) == -StringCompare(a, b)
  {
    CompareUnitsAntisymmetric(Utf16(a), Utf16(b));
  }

  /** A supplementary character sorts by its high surrogate, below U+FFFF,
      and counts as two units of length. */
  lemma SupplementaryOrder()
    ensures StringCompare("\U{FFFF}", "\U{1F600}") == 0xFFFF - 0xD83D
    ensures StringCompare("a\U{1F600}", "a") == 2
  {
    assert CodeUnits('\U{1F600}') == [0xD83D, 0xDE00];
    assert Utf16("\U{FFFF}") == [0xFFFF];
    assert Utf16("\U{1F600}") == [0xD83D, 0xDE00];
    assert Utf16("a") == ['a' as int];
    assert Utf16("a\U{1F600}") == ['a' as int, 0xD83D, 0xDE00];
  }

  class EObjectProxy {
    const doc: Document
    const kind: ProxyKind
    /** The wrapped object (`fEObject`); `None` stands for null. */
    const node: Option<NodeId>

    ghost predicate Valid()
      reads doc
    {
      && doc.Valid()
      && (node.Some? ==> node.value in doc.nodes && KindFor(doc.nodes[node.value].ifaces) == Some(kind))
    }

    constructor (d: Document, k: ProxyKind, n: Option<NodeId>)
      ensures doc == d && kind == k && node == n
    {
      doc := d;
      kind := k;
      node := n;
    }

    /** `getReferencedConcept`: for a diagram component that stands for a
        concept, that concept; otherwise the wrapped object itself. */
    function ReferencedConcept(): (r: Option<NodeId>)
      requires Valid()
      reads doc
      ensures r.Some? <==> node.Some?
      ensures r.Some? ==> r.value in doc.nodes
      ensures r != node ==> node.Some? && (kind == DiagramObjectKind || kind == ConnectionKind)
                            && r == doc.nodes[node.value].concept
      ensures node.Some? && (kind == DiagramObjectKind || kind == ConnectionKind) && doc.nodes[node.value].concept.Some?
              ==> r == doc.nodes[node.value].concept
    {
      if node.Some? && (kind == DiagramObjectKind || kind == ConnectionKind)
         && doc.nodes[node.value].concept.Some?
      then
        assert KindOk(doc.nodes, node.value);
        doc.nodes[node.value].concept
      else node
    }

    /** The referenced concept implements `IProperties`. */
    predicate HasBag()
      requires Valid()
      reads doc
    {
      ReferencedConcept().Some? && Properties in doc.nodes[ReferencedConcept().value].ifaces
    }

    /** The property list of the referenced concept; empty without a bag. */
    function Bag(): Bag
      requires Valid()
      reads doc
    {
      if HasBag() then doc.nodes[ReferencedConcept().value].attrs.properties else []
    }

    // -------------------------------------------------------------------------
    // Upward walk

    /** `getArchimateModel`: climb the containers until a model or null. */
    method GetArchimateModel() returns (m: Option<NodeId>)
      requires Valid()
      ensures m == EnclosingModel(doc.nodes, doc.rank, node)
      ensures m.Some? ==> IsModel(doc.nodes, m.value)
    {
      var o := node;
      while o.Some? && o.value in doc.nodes && ArchimateModel !in doc.nodes[o.value].ifaces
        invariant EnclosingModel(doc.nodes, doc.rank, o) == EnclosingModel(doc.nodes, doc.rank, node)
        decreases if o.Some? && o.value in doc.rank then doc.rank[o.value] + 1 else 0
      {
        assert UpLinkOk(doc.nodes, doc.rank, o.value);
        o := doc.nodes[o.value].links.container;
      }
      if o.Some? && o.value !in doc.nodes {
        o := None;
      }
      m := o;
    }

    /** `getModel`: the proxy of the enclosing model, or null. */
    method GetModel() returns (p: EObjectProxy?)
      requires Valid()
      ensures p == null <==> EnclosingModel(doc.nodes, doc.rank, node).None?
      ensures p != null ==> fresh(p) && p.doc == doc && p.kind == ModelKind
                            && p.node == EnclosingModel(doc.nodes, doc.rank, node) && p.Valid()
    {
      var m := GetArchimateModel();
      p := Get(doc, m);
      if p != null {
        KindForFirstMatch(doc.nodes[m.value].ifaces);
      }
    }

    /** `parent()`: the proxy of the container, or null. */
    method Parent() returns (p: EObjectProxy?)
      requires Valid()
      ensures node.None? ==> p == null
      ensures node.Some? ==> (p == null <==> ParentNode(doc.nodes, doc.rank, node.value).None?)
      ensures p != null ==> fresh(p) && p.doc == doc && p.Valid()
                            && p.node == ParentNode(doc.nodes, doc.rank, node.value)
                            && p.kind == KindFor(doc.nodes[p.node.value].ifaces).value
    {
      if node.None? {
        return null;
      }
      assert UpLinkOk(doc.nodes, doc.rank, node.value);
      p := Get(doc, doc.nodes[node.value].links.container);
    }

    /** `parents()`: null when the parent is null or the model; otherwise the
        parent followed by its own parents. */
    function Parents(): (r: Option<seq<NodeId>>)
      requires Valid()
      reads doc
    {
      if node.None? then None else ParentsOf(doc.nodes, doc.rank, node.value)
    }

    // -------------------------------------------------------------------------
    // Type, identity and ordering

    /** `getType`: the class name of the referenced concept, null without an object. */
    function GetType(): (r: Option<string>)
      requires Valid()
      reads doc
      ensures r.Some? <==> node.Some?
    {
      if ReferencedConcept().Some? then Some(doc.nodes[ReferencedConcept().value].attrs.typeTag) else None
    }

    /** The name as `getName` reads it (`attr(NAME)`). */
    function Name(): (r: Option<string>)
      requires Valid()
      reads doc
      ensures r.Some? ==> node.Some? && Nameable in doc.nodes[node.value].ifaces
    {
      if node.Some? && Nameable in doc.nodes[node.value].ifaces then doc.nodes[node.value].attrs.name else None
    }

    /** `equals`: the same proxy, or a proxy of the same non-null object. A
        node is an object only within its document. */
    function Equals(obj: EObjectProxy?): (r: bool)
      ensures obj == this ==> r
      ensures r && obj != this ==> obj != null && node.Some? && obj.doc == doc && obj.node == node
      ensures obj != null && node.Some? && obj.doc == doc && obj.node == node ==> r
    {
      this == obj || (obj != null && node.Some? && doc == obj.doc && node == obj.node)
    }

    /** `compareTo`: the names in `String.compareTo` order; 0 when the other
        proxy or either name is null. */
    function CompareTo(o: EObjectProxy?): (r: int)
      requires Valid() && (o != null ==> o.Valid())
      reads doc, if o != null then {o.doc} else {}
      ensures o == null || Name().None? || o.Name().None? ==> r == 0
      ensures o != null && Name().Some? && o.Name().Some? ==> (r == 0 <==> Name() == o.Name())
    {
      if o == null || o.Name().None? || Name().None? then 0
      else
        StringCompareZero(Name().value, o.Name().value);
        StringCompare(Name().value, o.Name().value)
    }

    // -------------------------------------------------------------------------
    // Generic attribute access

    /** `attr(key)` of the base proxy; keys it does not know give null. */
    function Attr(key: AttrKey): (r: Value)
      requires Valid()
      reads doc
      ensures r.Null? || r.Str?
      ensures !(key in {TypeKey, IdKey, NameKey, DocumentationKey}) ==> r == Null
      ensures key == TypeKey ==> AsText(r) == GetType()
      ensures key == IdKey ==>
                AsText(r) == if node.Some? && Identifier in doc.nodes[node.value].ifaces
                             then Some(doc.nodes[node.value].attrs.id) else None
      ensures key == NameKey ==> AsText(r) == Name()
      ensures key == DocumentationKey ==>
                AsText(r) == if HasDocumentation() then doc.nodes[ReferencedConcept().value].attrs.documentation else None
    {
      match key
      case TypeKey => if GetType().Some? then Str(GetType().value) else Null
      case IdKey =>
        if node.Some? && Identifier in doc.nodes[node.value].ifaces then Str(doc.nodes[node.value].attrs.id) else Null
      case NameKey => if Name().Some? then Str(Name().value) else Null
      case DocumentationKey =>
        var c := ReferencedConcept();
        if c.Some? && Documentable in doc.nodes[c.value].ifaces && doc.nodes[c.value].attrs.documentation.Some?
        then Str(doc.nodes[c.value].attrs.documentation.value) else Null
      case _ => Null
    }

    /** The command `attr(key, value)` of the base proxy issues, if any: the
        name is written on the object, the documentation on the referenced
        concept; other keys write nothing. */
    function AttrCommand(key: AttrKey, value: Value): (r: Option<Command>)
      requires Valid() && ((key == NameKey || key == DocumentationKey) ==> IsText(value))
      reads doc
      ensures r.Some? ==> key == NameKey || key == DocumentationKey
      ensures key == NameKey && node.Some? && Nameable in doc.nodes[node.value].ifaces
              ==> r == Some(Commands.SetName(node.value, AsText(value)))
      ensures key == DocumentationKey && HasDocumentation() ==>
                r == Some(SetDocumentation(ReferencedConcept().value, AsText(value)))
    {
      match key
      case NameKey =>
        if node.Some? && Nameable in doc.nodes[node.value].ifaces then Some(Commands.SetName(node.value, AsText(value))) else None
      case DocumentationKey =>
        if HasDocumentation() then Some(SetDocumentation(ReferencedConcept().value, AsText(value))) else None
      case _ => None
    }

    predicate HasDocumentation()
      requires Valid()
      reads doc
    {
      ReferencedConcept().Some? && Documentable in doc.nodes[ReferencedConcept().value].ifaces
    }

    /** `attr(key, value)` of the base proxy; returns this proxy. */
    method SetAttr(key: AttrKey, value: Value) returns (self: EObjectProxy)
      requires Valid() && ((key == NameKey || key == DocumentationKey) ==> IsText(value))
      modifies doc
      ensures self == this && Valid()
      ensures var c := old(AttrCommand(key, value));
              && (c.None? ==> doc.nodes == old(doc.nodes) && doc.log == old(doc.log))
              && (c.Some? ==> doc.nodes == Apply(old(doc.nodes), c.value) && doc.log == old(doc.log) + [c.value])
      ensures doc.rank == old(doc.rank)
    {
      var c := AttrCommand(key, value);
      if c.Some? {
        doc.Execute(c.value);
      }
      self := this;
    }

    /** Writing a name and reading it back gives that name. */
    method SetName(name: Option<string>) returns (self: EObjectProxy)
      requires Valid()
      modifies doc
      ensures self == this && Valid()
      ensures old(node.Some? && Nameable in doc.nodes[node.value].ifaces) ==>
                Name() == name && Attr(NameKey) == if name.Some? then Str(name.value) else Null
      ensures old(node.None? || Nameable !in doc.nodes[node.value].ifaces) ==>
                doc.nodes == old(doc.nodes) && doc.log == old(doc.log)
    {
      var v := if name.Some? then Str(name.value) else Null;
      ghost var nameable := node.Some? && Nameable in doc.nodes[node.value].ifaces;
      self := SetAttr(NameKey, v);
      if nameable {
        assert Name() == name;
        assert Attr(NameKey) == v;
      }
    }

    /** `delete` of the base proxy: always refused. */
    method Delete() returns (r: Outcome<ScriptError>)
      ensures r.Fail? && r.error == UnsupportedOperation
    {
      r := Fail(UnsupportedOperation);
    }

    // -------------------------------------------------------------------------
    // Descendants

    /** The nodes `find()` wraps, in the order `eAllContents` visits them. */
    function FoundNodes(): (r: seq<NodeId>)
      requires Valid()
      reads doc
    {
      if node.None? then [] else Proxied(doc.nodes, AllContents(doc.nodes, doc.rank, node.value))
    }

    /** `find()`: a proxy for every descendant the factory can wrap. */
    method Find() returns (r: seq<EObjectProxy>)
      requires Valid()
      ensures |r| == |FoundNodes()|
      ensures forall i :: 0 <= i < |r| ==> fresh(r[i]) && ProxyOf(r[i], doc, FoundNodes()[i])
    {
      r := [];
      if node.None? {
        return;
      }
      var all := AllContents(doc.nodes, doc.rank, node.value);
      forall x | x in all ensures x in doc.nodes {
        AllContentsBelow(doc.nodes, doc.rank, node.value, x);
      }
      r := ProxiesOf(doc, all);
    }

    /** `find(EObject)`: the proxy of the object alone, or nothing when it has none. */
    method FindEObject(o: Option<NodeId>) returns (r: seq<EObjectProxy>)
      requires Valid() && (o.Some? ==> o.value in doc.nodes)
      ensures |r| <= 1
      ensures r == [] <==> o.None? || KindFor(doc.nodes[o.value].ifaces).None?
      ensures r != [] ==> fresh(r[0]) && r[0].node == o && r[0].doc == doc && r[0].Valid()
    {
      var p := Get(doc, o);
      r := if p == null then [] else [p];
    }

    /** `find(EObjectProxy)`: the given proxy alone, or nothing for null. */
    method FindProxy(obj: EObjectProxy?) returns (r: seq<EObjectProxy>)
      ensures obj == null ==> r == []
      ensures obj != null ==> r == [obj]
    {
      r := if obj == null then [] else [obj];
    }

    // -------------------------------------------------------------------------
    // Properties

    /** `getPropertyKey` (`prop()`): each key once, in first-occurrence order. */
    method GetPropertyKey() returns (keys: seq<string>)
      requires Valid()
      ensures keys == DistinctKeys(Bag())
    {
      keys := [];
      if !HasBag() {
        return;
      }
      var ps := doc.nodes[ReferencedConcept().value].attrs.properties;
      var i := 0;
      while i < |ps|
        invariant 0 <= i <= |ps|
        invariant keys == DistinctKeys(ps[..i])
      {
        assert ps[..i + 1][..i] == ps[..i];
        if ps[i].key !in keys {
          keys := keys + [ps[i].key];
        }
        i := i + 1;
      }
      assert ps[..i] == ps;
    }

    /** `getPropertyValue`: the values of the properties with this key, in order. */
    method GetPropertyValue(key: Option<string>) returns (values: seq<string>)
      requires Valid()
      ensures values == ValuesOf(Bag(), key)
    {
      values := [];
      if !HasBag() || key.None? {
        return;
      }
      var ps := doc.nodes[ReferencedConcept().value].attrs.properties;
      var i := 0;
      while i < |ps|
        invariant 0 <= i <= |ps|
        invariant values == ValuesOf(ps[..i], key)
      {
        assert ps[..i + 1][..i] == ps[..i];
        if ps[i].key == key.value {
          values := values + [ps[i].value];
        }
        i := i + 1;
      }
      assert ps[..i] == ps;
    }

    /** `prop(key, allowDuplicate)`: null without a match, else all values or the first. */
    method Prop(key: Option<string>, allowDuplicate: bool) returns (r: PropResult)
      requires Valid()
      ensures r.NoValue? <==> key.None? || !HasKey(Bag(), key.value)
      ensures r.AllValues? ==> allowDuplicate && r.values == ValuesOf(Bag(), key) && r.values != []
      ensures r.FirstValue? ==> !allowDuplicate && key.Some? && HasKey(Bag(), key.value)
                                && r.value == Bag()[FirstIndex(Bag(), key.value)].value
      ensures !r.NoValue? ==> (r.AllValues? <==> allowDuplicate)
    {
      var vs := GetPropertyValue(key);
      if key.Some? {
        if HasKey(Bag(), key.value) {
          ValuesOfHead(Bag(), key.value);
        } else {
          ValuesOfNone(Bag(), key.value);
        }
      }
      if vs == [] {
        r := NoValue;
      } else if allowDuplicate {
        r := AllValues(vs);
      } else {
        r := FirstValue(vs[0]);
      }
    }

    /** `addProperty`: append one property when there is a bag and neither
        key nor value is null. */
    method AddProperty(key: Option<string>, value: Option<string>) returns (self: EObjectProxy)
      requires Valid()
      modifies doc
      ensures self == this && Valid() && doc.rank == old(doc.rank)
      ensures old(HasBag()) && key.Some? && value.Some? ==>
                && doc.log == old(doc.log) + [Commands.AddProperty(old(ReferencedConcept()).value, key.value, value.value)]
                && doc.nodes == WithBag(old(doc.nodes), old(ReferencedConcept()).value, old(Bag()) + [Property(key.value, value.value)])
      ensures !(old(HasBag()) && key.Some? && value.Some?) ==> doc.nodes == old(doc.nodes) && doc.log == old(doc.log)
    {
      if HasBag() && key.Some? && value.Some? {
        ApplyPropertyCommand(doc.nodes, Commands.AddProperty(ReferencedConcept().value, key.value, value.value));
        doc.Execute(Commands.AddProperty(ReferencedConcept().value, key.value, value.value));
      }
      self := this;
    }

    /** `addOrUpdateProperty`: give every property with the key the value, or
        append one when none has it; null key or value, or no bag, changes nothing. */
    method AddOrUpdateProperty(key: Option<string>, value: Option<string>) returns (self: EObjectProxy)
      requires Valid()
      modifies doc
      ensures self == this && Valid() && doc.rank == old(doc.rank)
      ensures old(HasBag()) && key.Some? && value.Some? ==>
                var c := old(ReferencedConcept()).value;
                && doc.nodes == WithBag(old(doc.nodes), c, AddOrUpdate(old(Bag()), key.value, value.value))
                && doc.log == old(doc.log) + (if HasKey(old(Bag()), key.value)
                                              then UpdateCommands(c, old(Bag()), key.value, value.value)
                                              else [Commands.AddProperty(c, key.value, value.value)])
      ensures !(old(HasBag()) && key.Some? && value.Some?) ==> doc.nodes == old(doc.nodes) && doc.log == old(doc.log)
    {
      self := this;
      if !(HasBag() && key.Some? && value.Some?) {
        return;
      }
      var c := ReferencedConcept().value;
      ghost var nodes0 := doc.nodes;
      ghost var log0 := doc.log;
      ghost var ps := Bag();
      assert ps == nodes0[c].attrs.properties;
      var updated := UpdateEach(doc, c, key.value, value.value);
      if !updated {
        NoMatchNoUpdate(c, ps, key.value, value.value);
        assert WithBag(nodes0, c, ps) == nodes0;
        assert doc.nodes == nodes0 && doc.log == log0;
        assert ReferencedConcept() == Some(c) && HasBag() && Bag() == ps;
        self := AddProperty(key, value);
        assert doc.log == log0 + [Commands.AddProperty(c, key.value, value.value)];
      } else {
        assert doc.log == log0 + UpdateCommands(c, ps, key.value, value.value);
      }
    }

    /** `prop(key, value, allowDuplicate)`: append when duplicates are allowed,
        otherwise add or update. */
    method SetProp(key: Option<string>, value: Option<string>, allowDuplicate: bool) returns (self: EObjectProxy)
      requires Valid()
      modifies doc
      ensures self == this && Valid() && doc.rank == old(doc.rank)
      ensures old(HasBag()) && key.Some? && value.Some? ==>
                var c := old(ReferencedConcept()).value;
                && doc.nodes == WithBag(old(doc.nodes), c,
                                        if allowDuplicate then old(Bag()) + [Property(key.value, value.value)]
                                        else AddOrUpdate(old(Bag()), key.value, value.value))
                && doc.log == old(doc.log) + (if allowDuplicate || !HasKey(old(Bag()), key.value)
                                              then [Commands.AddProperty(c, key.value, value.value)]
                                              else UpdateCommands(c, old(Bag()), key.value, value.value))
      ensures !(old(HasBag()) && key.Some? && value.Some?) ==> doc.nodes == old(doc.nodes) && doc.log == old(doc.log)
    {
      if allowDuplicate {
        self := AddProperty(key, value);
      } else {
        self := AddOrUpdateProperty(key, value);
      }
    }

    /** `removeProp(key, value)`: remove the properties with the key and, when
        a value is given, that value; one removal command, possibly empty. */
    method RemoveProp(key: Option<string>, value: Option<string>) returns (self: EObjectProxy)
      requires Valid()
      modifies doc
      ensures self == this && Valid() && doc.rank == old(doc.rank)
      ensures old(HasBag()) ==>
                var c := old(ReferencedConcept()).value;
                && doc.nodes == WithBag(old(doc.nodes), c, RemoveMatching(old(Bag()), key, value))
                && doc.log == old(doc.log) + [RemoveProperties(c, RemovalIndices(old(Bag()), key, value))]
      ensures !old(HasBag()) ==> doc.nodes == old(doc.nodes) && doc.log == old(doc.log)
    {
      self := this;
      if !HasBag() {
        return;
      }
      var c := ReferencedConcept().value;
      var ps := doc.nodes[c].attrs.properties;
      var toRemove := CollectRemovals(ps, key, value);
      RemoveCollected(ps, key, value);
      ApplyPropertyCommand(doc.nodes, RemoveProperties(c, toRemove));
      doc.Execute(RemoveProperties(c, toRemove));
    }
  }

  /** The loop of `removeProp`: the indices of the properties to remove,
      in bag order. */
  method CollectRemovals(ps: Bag, key: Option<string>, value: Option<string>) returns (toRemove: seq<nat>)
    ensures toRemove == RemovalIndices(ps, key, value)
  {
    toRemove := [];
    var i := 0;
    while i < |ps|
      invariant 0 <= i <= |ps|
      invariant toRemove == RemovalIndices(ps[..i], key, value)
    {
      assert ps[..i + 1][..i] == ps[..i];
      if key.Some? && ps[i].key == key.value {
        if value.None? || ps[i].value == value.value {
          toRemove := toRemove + [i];
        }
      }
      i := i + 1;
    }
    assert ps[..i] == ps;
  }

  /** The loop of `addOrUpdateProperty`: a value update for each property
      of `c` with key `k`; reports whether there was one. */
  method UpdateEach(doc: Document, c: NodeId, k: string, v: string) returns (updated: bool)
    requires doc.Valid() && c in doc.nodes
    modifies doc
    ensures doc.Valid() && doc.rank == old(doc.rank)
    ensures doc.nodes == WithBag(old(doc.nodes), c, UpdateAll(old(doc.nodes[c].attrs.properties), k, v))
    ensures doc.log == old(doc.log) + UpdateCommands(c, old(doc.nodes[c].attrs.properties), k, v)
    ensures updated <==> HasKey(old(doc.nodes[c].attrs.properties), k)
  {
    ghost var nodes0 := doc.nodes;
    ghost var log0 := doc.log;
    var ps := doc.nodes[c].attrs.properties;
    updated := false;
    var i := 0;
    UpdateAllStart(ps, k, v);
    assert WithBag(nodes0, c, ps) == nodes0;
    while i < |ps|
      invariant 0 <= i <= |ps|
      invariant UpdatedUpTo(doc, nodes0, log0, c, ps, k, v, i, updated)
      invariant doc.rank == old(doc.rank)
    {
      updated := UpdateStep(doc, nodes0, log0, c, ps, k, v, i, updated);
      i := i + 1;
    }
    UpdateAllEnd(ps, k, v);
  }

  /** The state of `UpdateEach` after the first `i` properties. */
  ghost predicate UpdatedUpTo(doc: Document, nodes0: Nodes, log0: seq<Command>, c: NodeId, ps: Bag,
                              k: string, v: string, i: nat, updated: bool)
    reads doc
  {
    && i <= |ps| && c in nodes0
    && doc.Valid()
    && doc.nodes == WithBag(nodes0, c, UpdateAll(ps[..i], k, v) + ps[i..])
    && doc.log == log0 + UpdateCommands(c, ps[..i], k, v)
    && (updated <==> HasKey(ps[..i], k))
  }

  /** One iteration of the loop of `UpdateEach`. */
  method UpdateStep(doc: Document, ghost nodes0: Nodes, ghost log0: seq<Command>, c: NodeId, ps: Bag,
                    k: string, v: string, i: nat, updated: bool) returns (updated': bool)
    requires i < |ps| && UpdatedUpTo(doc, nodes0, log0, c, ps, k, v, i, updated)
    modifies doc
    ensures UpdatedUpTo(doc, nodes0, log0, c, ps, k, v, i + 1, updated')
    ensures doc.rank == old(doc.rank)
  {
    ghost var cur := UpdateAll(ps[..i], k, v) + ps[i..];
    UpdatePrefixStep(c, ps, i, k, v);
    UpdateAllStep(ps, i, k, v);
    updated' := updated;
    if ps[i].key == k {
      assert WithBag(WithBag(nodes0, c, cur), c, cur[i := SetIfKey(ps[i], k, v)]) == WithBag(nodes0, c, cur[i := SetIfKey(ps[i], k, v)]);
      SetValueAt(doc, c, i, v);
      assert doc.log == log0 + (UpdateCommands(c, ps[..i], k, v) + [SetPropertyValue(c, i, v)]);
      updated' := true;
    } else {
      assert cur[i := SetIfKey(ps[i], k, v)] == cur;
    }
  }

  /** Without a property of that key, nothing is updated. */
  lemma {:induction false} NoMatchNoUpdate(c: NodeId, ps: Bag, k: string, v: string)
    requires !HasKey(ps, k)
    ensures UpdateAll(ps, k, v) == ps
    ensures UpdateCommands(c, ps, k, v) == []
  {
    if ps != [] {
      var init := ps[..|ps| - 1];
      assert !HasKey(init, k) by {
        forall i | 0 <= i < |init| ensures init[i].key != k { assert init[i] == ps[i]; }
      }
      NoMatchNoUpdate(c, init, k, v);
      assert ps[|ps| - 1].key != k;
      assert ps == init + [ps[|ps| - 1]];
    }
  }

  lemma UpdateAllEnd(ps: Bag, k: string, v: string)
    ensures ps[..|ps|] == ps
    ensures UpdateAll(ps[..|ps|], k, v) + ps[|ps|..] == UpdateAll(ps, k, v)
  {
    assert ps[..|ps|] == ps && ps[|ps|..] == [];
  }

  /** One `SetCommand` on the value of the property at `i` of `c`. */
  method SetValueAt(doc: Document, c: NodeId, i: nat, v: string)
    requires doc.Valid() && c in doc.nodes && i < |doc.nodes[c].attrs.properties|
    modifies doc
    ensures doc.Valid() && doc.rank == old(doc.rank)
    ensures var ps := old(doc.nodes[c].attrs.properties);
            doc.nodes == WithBag(old(doc.nodes), c, ps[i := ps[i].(value := v)])
    ensures doc.log == old(doc.log) + [SetPropertyValue(c, i, v)]
  {
    ApplyPropertyCommand(doc.nodes, SetPropertyValue(c, i, v));
    doc.Execute(SetPropertyValue(c, i, v));
  }

  /** The value updates `addOrUpdateProperty` issues: one per property with the key, in order. */
  function UpdateCommands(x: NodeId, ps: Bag, k: string, v: string): seq<Command> {
    if ps == [] then []
    else UpdateCommands(x, ps[..|ps| - 1], k, v) + (if ps[|ps| - 1].key == k then [SetPropertyValue(x, |ps| - 1, v)] else [])
  }

  /** The updates are value writes of `v` to exactly the properties with key `k`. */
  lemma {:induction false} UpdateCommandsSpec(x: NodeId, ps: Bag, k: string, v: string, c: Command)
    ensures c in UpdateCommands(x, ps, k, v) <==>
              c.SetPropertyValue? && c.node == x && c.value == v && c.index < |ps| && ps[c.index].key == k
  {
    if ps != [] {
      var init := ps[..|ps| - 1];
      UpdateCommandsSpec(x, init, k, v, c);
      if c.SetPropertyValue? && c.index < |init| {
        assert ps[c.index] == init[c.index];
      }
    }
  }

  lemma UpdatePrefixStep(x: NodeId, ps: Bag, i: nat, k: string, v: string)
    requires i < |ps|
    ensures UpdateCommands(x, ps[..i + 1], k, v) ==
              UpdateCommands(x, ps[..i], k, v) + (if ps[i].key == k then [SetPropertyValue(x, i, v)] else [])
    ensures HasKey(ps[..i + 1], k) <==> HasKey(ps[..i], k) || ps[i].key == k
  {
    assert ps[..i + 1][..i] == ps[..i];
    assert ps[..i + 1] == ps[..i] + [ps[i]];
    HasKeySnoc(ps[..i], ps[i], k);
  }

  lemma HasKeySnoc(ps: Bag, p: Property, k: string)
    ensures HasKey(ps + [p], k) <==> HasKey(ps, k) || p.key == k
  {
    if HasKey(ps + [p], k) && p.key != k {
      var i :| 0 <= i < |ps + [p]| && (ps + [p])[i].key == k;
      assert ps[i] == (ps + [p])[i];
    }
    if HasKey(ps, k) {
      var i :| 0 <= i < |ps| && ps[i].key == k;
      assert (ps + [p])[i] == ps[i];
    }
    if p.key == k {
      assert (ps + [p])[|ps|] == p;
    }
  }

  /** `p` is the factory's proxy of node `x` of `doc`. */
  ghost predicate ProxyOf(p: EObjectProxy, doc: Document, x: NodeId)
    reads doc
  {
    && p.doc == doc && p.node == Some(x) && x in doc.nodes
    && Some(p.kind) == KindFor(doc.nodes[x].ifaces)
  }

  /** The factory applied to each node of `s`, keeping the non-null proxies:
      the loop of `find()`. */
  method ProxiesOf(doc: Document, s: seq<NodeId>) returns (r: seq<EObjectProxy>)
    requires forall x :: x in s ==> x in doc.nodes
    ensures |r| == |Proxied(doc.nodes, s)|
    ensures forall j :: 0 <= j < |r| ==> fresh(r[j]) && ProxyOf(r[j], doc, Proxied(doc.nodes, s)[j])
  {
    r := [];
    ghost var found: seq<NodeId> := [];
    var i := 0;
    while i < |s|
      invariant 0 <= i <= |s|
      invariant found == Proxied(doc.nodes, s[..i])
      invariant |r| == |found|
      invariant forall j :: 0 <= j < |r| ==> ProxyOf(r[j], doc, found[j])
      invariant forall j :: 0 <= j < |r| ==> fresh(r[j])
    {
      ProxiedPrefix(doc.nodes, s, i);
      var p := Get(doc, Some(s[i]));
      if p != null {
        assert ProxyOf(p, doc, s[i]);
        r := r + [p];
        found := found + [s[i]];
      }
      i := i + 1;
    }
    assert s[..i] == s;
  }

  /** `EObjectProxy.get`: a proxy of the kind the factory picks, or null for
      null and for objects of no known kind. */
  method Get(doc: Document, o: Option<NodeId>) returns (p: EObjectProxy?)
    requires o.Some? ==> o.value in doc.nodes
    ensures p == null <==> o.None? || KindFor(doc.nodes[o.value].ifaces).None?
    ensures p != null ==> fresh(p) && ProxyOf(p, doc, o.value)
  {
    if o.None? {
      return null;
    }
    var k := KindFor(doc.nodes[o.value].ifaces);
    if k.None? {
      return null;
    }
    p := new EObjectProxy(doc, k.value, o);
  }

  /** The container of `x` when the factory can wrap it. */
  function ParentNode(nodes: Nodes, ghost rank: map<NodeId, nat>, x: NodeId): (r: Option<NodeId>)
    requires WellFormed(nodes, rank) && x in nodes
    ensures r.Some? ==> r == nodes[x].links.container && r.value in nodes && KindFor(nodes[r.value].ifaces).Some?
  {
    var c := nodes[x].links.container;
    assert UpLinkOk(nodes, rank, x);
    if c.Some? && KindFor(nodes[c.value].ifaces).Some? then c else None
  }

  /** `parents()` on node ids: none when the parent is null or a model;
      otherwise the parent followed by the parent's own parents. */
  function ParentsOf(nodes: Nodes, ghost rank: map<NodeId, nat>, x: NodeId): Option<seq<NodeId>>
    requires WellFormed(nodes, rank) && x in nodes
    decreases rank[x]
  {
    var p := ParentNode(nodes, rank, x);
    if p.None? || ArchimateModel in nodes[p.value].ifaces then None
    else
      assert UpLinkOk(nodes, rank, x);
      var rest := ParentsOf(nodes, rank, p.value);
      Some([p.value] + (if rest.Some? then rest.value else []))
  }

  /** `parents()` is null exactly when the parent is null or the model; it
      otherwise starts with the parent and lists only proper ancestors that
      are not models. */
  lemma {:induction false} ParentsSpec(nodes: Nodes, rank: map<NodeId, nat>, x: NodeId)
    requires WellFormed(nodes, rank) && x in nodes
    ensures var p := ParentNode(nodes, rank, x);
            ParentsOf(nodes, rank, x).None? <==> p.None? || IsModel(nodes, p.value)
    ensures ParentsOf(nodes, rank, x).Some? ==>
              var s := ParentsOf(nodes, rank, x).value;
              && s != [] && Some(s[0]) == ParentNode(nodes, rank, x)
              && forall y :: y in s ==> y != x && y in Chain(nodes, rank, Some(x)) && !IsModel(nodes, y)
    decreases rank[x]
  {
    var p := ParentNode(nodes, rank, x);
    assert UpLinkOk(nodes, rank, x);
    if p.Some? && !IsModel(nodes, p.value) {
      ParentsSpec(nodes, rank, p.value);
      ChainRanks(nodes, rank, p.value);
      var rest := ParentsOf(nodes, rank, p.value);
      assert Chain(nodes, rank, Some(x)) == [x] + Chain(nodes, rank, p);
      if rest.Some? {
        forall y | y in rest.value ensures y != x && y in Chain(nodes, rank, Some(x)) && !IsModel(nodes, y) {
          assert y in Chain(nodes, rank, p);
        }
      }
    }
  }

  /** `find()` yields exactly the proper descendants the factory can wrap. */
  lemma FoundNodesExactly(nodes: Nodes, rank: map<NodeId, nat>, n: NodeId, x: NodeId)
    requires WellFormed(nodes, rank) && n in nodes
    ensures x in Proxied(nodes, AllContents(nodes, rank, n)) <==>
              x in nodes && x != n && n in Chain(nodes, rank, Some(x)) && KindFor(nodes[x].ifaces).Some?
  {
    ProxiedMembership(nodes, AllContents(nodes, rank, n), x);
    if x in AllContents(nodes, rank, n) {
      AllContentsBelow(nodes, rank, n, x);
    }
    if x in nodes && x != n && n in Chain(nodes, rank, Some(x)) {
      DescendantInAllContents(nodes, rank, n, x);
    }
  }

  /** `equals` is an equivalence relation on proxies: reflexive, symmetric
      and transitive. */
  lemma EqualsSpec(p: EObjectProxy, q: EObjectProxy, o: EObjectProxy)
    ensures p.Equals(p)
    ensures p.Equals(q) <==> q.Equals(p)
    ensures p.Equals(q) && q.Equals(o) ==> p.Equals(o)
  {
  }

  /** Comparing the other way round flips the sign. */
  lemma CompareToAntisymmetric(p: EObjectProxy, q: EObjectProxy)
    requires p.Valid() && q.Valid()
    ensures q.CompareTo(p) == -p.CompareTo(q)
  {
    if p.Name().Some? && q.Name().Some? {
      StringCompareAntisymmetric(p.Name().value, q.Name().value);
    }
  }
}
