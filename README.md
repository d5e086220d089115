# jArchi scripting proxies, modelled in Dafny

The jArchi scripting plugin does not hand the Archi model to scripts
directly. It wraps each model object in a *proxy* that offers a uniform API:
a string-keyed `attr` get/set, a property bag, parent and descendant walks,
and deletion. Every change a proxy makes is one undoable command.

This project models three pieces of that layer and proves their contracts.

The **base proxy** (`EObjectProxy`) covers:
- the factory `get`, which picks a proxy kind in a fixed priority order;
- the upward walk to the enclosing model;
- `find()`, `find(EObject)` and `find(EObjectProxy)`;
- `parent` and `parents`;
- the property operations (`prop`, `addProperty`, `addOrUpdateProperty`,
  `getPropertyKey`, `getPropertyValue`, `removeProp`);
- the generic `attr(key)` and `attr(key, value)`;
- `delete`, `equals` and `compareTo`.

The **diagram-object proxy** (`DiagramModelObjectProxy`) covers the visual
attributes: bounds, fill colour, opacity, outline opacity, gradient, figure
type, text alignment and position, icon visibility, image source, image
position and image. Each one is clamped, coerced to a default, rejected, or
skipped behind a capability gate. The model also covers:
- the `attr` overrides;
- `children()` and `find()`;
- the container guard of `add`, `createObject` and `createViewReference`;
- the cascading `delete`.

The **specialization of a concept** covers `getSpecialization` and
`setSpecialization` of `ArchimateConceptProxy`. It is modelled from the
concept proxy tests, because the implementation class is not part of this
model.

How the model is built:

- **Graph.** The object graph is a `map<NodeId, NodeData>` (module `Graph`).
  Each node holds:
  - its type, as the set of model interfaces its class implements;
  - the capability facts owned by collaborators outside the model;
  - its containment links and diagram connection lists;
  - its attributes.

  A ghost `rank` makes containment acyclic. It is the termination measure of
  the upward and downward walks.
- **Commands.** Every change is a `Commands.Command` value. A
  `Commands.Document` is a class holding the graph and the log of executed
  commands. `Document.Execute(c)` replaces the graph by `Apply(graph, c)`
  and appends `c` to the log. This stands in for
  `CommandHandler.executeCommand`.
- **Proxies.** They are classes with constant fields, so Java's `this == obj`
  is Dafny object identity. `DiagramModelObjectProxy` and
  `ArchimateConceptProxy` hold the `EObjectProxy` of their object as `base`,
  in place of inheritance.
- **Loops.** Each loop of the Java code is a `while` loop, proved against a
  specification function: `DistinctKeys`, `ValuesOf`, `UpdateAll`,
  `RemovalIndices`, `Proxied`, `DiagramChildren` and `Cascade`. The
  properties the source promises are lemmas about those functions.

Three behaviours that a reader might expect otherwise, stated as the source has them:
- **Text alignment.** `setTextAlignment` accepts exactly the LEFT, CENTER and
  RIGHT constants of Archi's `ITextAlignment`, which are 1, 2 and 4
  (`DiagramModelObjectProxy.java`, lines 233-243). Any other value throws,
  so 2 (CENTER) is valid and 0 and 3 are not.
- **Empty specialization.** The concept proxy tests set the specialization to
  null to clear it and expect the empty name to throw
  (`ArchimateConceptProxyTests.java`, lines 45-46 and 66-69). The rule
  modelled here does the same.
- **Referenced concept.** `getReferencedConcept` returns the wrapped object,
  and the Javadoc lets subclasses override it (`EObjectProxy.java`, lines
  94-100). The override for diagram components is modelled: a diagram object
  or connection that stands for an ArchiMate concept refers to that concept.
  The property operations, the type and DOCUMENTATION go through it. Which
  concept a diagram component stands for is an input of the graph (the
  node's `concept` link).

## Model

| member | source | states |
|---|---|---|
| ProxyFactory.KindForFirstMatch | com.archimatetool.script/src/com/archimatetool/script/dom/model/EObjectProxy.java:50-80 | An object without a proxy implements none of the seven interfaces. Otherwise its proxy kind is the first of model, element, relationship, diagram model, diagram object, connection, folder whose interface it implements. |
| ProxyFactory.DiagramObjectKindFor | com.archimatetool.script/src/com/archimatetool/script/dom/model/DiagramModelObjectProxy.java:129-132 | Every diagram object of a well-formed graph gets a diagram-object proxy from the factory. |
| EObjectProxies.Get | com.archimatetool.script/src/com/archimatetool/script/dom/model/EObjectProxy.java:50-80 | Null exactly for a null object or an object of no known kind. Otherwise a new proxy of the factory's kind for that object. |
| EObjectProxies.EObjectProxy.ReferencedConcept | com.archimatetool.script/src/com/archimatetool/script/dom/model/EObjectProxy.java:94-100 | Null exactly for a null object. For a diagram object or connection that stands for a concept, that concept; for every other proxy, the wrapped object itself. The result is a node of the graph. |
| EObjectProxies.EObjectProxy.GetArchimateModel | com.archimatetool.script/src/com/archimatetool/script/dom/model/EObjectProxy.java:107-113 | The containment loop ends, and returns the nearest ancestor-or-self of model type (none if there is none). The result is a model. |
| Graph.EnclosingModelNone | com.archimatetool.script/src/com/archimatetool/script/dom/model/EObjectProxy.java:107-113 | There is no enclosing model exactly when no node of the containment chain is a model. |
| Graph.EnclosingModelFirst | com.archimatetool.script/src/com/archimatetool/script/dom/model/EObjectProxy.java:107-113 | The enclosing model is the first model-typed node of the chain: every node before it is not a model. |
| Graph.Chain | com.archimatetool.script/src/com/archimatetool/script/dom/model/EObjectProxy.java:108-111 | The chain the loop climbs starts at the object itself and holds only graph nodes. |
| EObjectProxies.EObjectProxy.GetModel | com.archimatetool.script/src/com/archimatetool/script/dom/model/EObjectProxy.java:102-104 | Null exactly when there is no enclosing model. Otherwise a valid model proxy of the enclosing model. |
| EObjectProxies.EObjectProxy.Parent | com.archimatetool.script/src/com/archimatetool/script/dom/model/EObjectProxy.java:221-223 | Null for a null object, or when the container is null or has no proxy. Otherwise a valid proxy of the container, of the factory's kind. |
| EObjectProxies.ParentNode | com.archimatetool.script/src/com/archimatetool/script/dom/model/EObjectProxy.java:222 | A parent node, when there is one, is the container of the object and has a proxy kind. |
| EObjectProxies.ParentsSpec | com.archimatetool.script/src/com/archimatetool/script/dom/model/EObjectProxy.java:225-236 | `parents()` is null exactly when the parent is null or a model. Otherwise it starts with the parent and holds only proper ancestors that are not models. |
| EObjectProxies.EObjectProxy.GetType | com.archimatetool.script/src/com/archimatetool/script/dom/model/EObjectProxy.java:138-144 | The type is non-null exactly when the proxy wraps an object. |
| EObjectProxies.EObjectProxy.Name | com.archimatetool.script/src/com/archimatetool/script/dom/model/EObjectProxy.java:417-418 | A non-null name comes only from a non-null, nameable object. |
| EObjectProxies.EObjectProxy.Equals | com.archimatetool.script/src/com/archimatetool/script/dom/model/EObjectProxy.java:447-461 | A proxy equals itself. A different proxy is equal exactly when both wrap the same non-null object of the same document. A proxy of a null object equals only itself. |
| EObjectProxies.EqualsSpec | com.archimatetool.script/src/com/archimatetool/script/dom/model/EObjectProxy.java:447-461 | `equals` is reflexive, symmetric and transitive: an equivalence relation on proxies. |
| EObjectProxies.EObjectProxy.CompareTo | com.archimatetool.script/src/com/archimatetool/script/dom/model/EObjectProxy.java:469-474 | 0 when the other proxy or either name is null. Otherwise the names compared as Java strings, by UTF-16 code units; 0 exactly when the names are equal. |
| EObjectProxies.CompareToAntisymmetric | com.archimatetool.script/src/com/archimatetool/script/dom/model/EObjectProxy.java:469-474 | Comparing in the other direction flips the sign of the result. |
| EObjectProxies.StringCompareZero | com.archimatetool.script/src/com/archimatetool/script/dom/model/EObjectProxy.java:473 | `String.compareTo` is 0 exactly for equal strings; this rests on the UTF-16 encoding being injective. |
| EObjectProxies.CodeUnits | com.archimatetool.script/src/com/archimatetool/script/dom/model/EObjectProxy.java:473 | A character below U+10000 is one code unit, which is not a surrogate. Any other character is a high surrogate followed by a low surrogate. |
| EObjectProxies.CodeUnitsInjective | com.archimatetool.script/src/com/archimatetool/script/dom/model/EObjectProxy.java:473 | Different characters have different code units. |
| EObjectProxies.Utf16Injective | com.archimatetool.script/src/com/archimatetool/script/dom/model/EObjectProxy.java:473 | Different strings have different UTF-16 code units. |
| EObjectProxies.CompareUnitsZero | com.archimatetool.script/src/com/archimatetool/script/dom/model/EObjectProxy.java:473 | Lexicographic comparison of code units is 0 exactly for equal sequences. |
| EObjectProxies.CompareUnitsAntisymmetric | com.archimatetool.script/src/com/archimatetool/script/dom/model/EObjectProxy.java:473 | Swapping the code-unit sequences negates the comparison. |
| EObjectProxies.SupplementaryOrder | com.archimatetool.script/src/com/archimatetool/script/dom/model/EObjectProxy.java:473 | A supplementary character compares by its high surrogate, so it sorts before U+FFFF, and it adds two to the length difference. |
| EObjectProxies.StringCompareAntisymmetric | com.archimatetool.script/src/com/archimatetool/script/dom/model/EObjectProxy.java:473 | `String.compareTo` with its arguments swapped is the negated result. |
| EObjectProxies.EObjectProxy.Attr | com.archimatetool.script/src/com/archimatetool/script/dom/model/EObjectProxy.java:409-426 | The base `attr(key)` is a string or null. TYPE reads `getType()`, ID the identifier of an identifiable object, NAME `getName()`, and DOCUMENTATION the documentation of a documentable referenced concept; each is null where that is missing. Every other key gives null. |
| EObjectProxies.EObjectProxy.AttrCommand | com.archimatetool.script/src/com/archimatetool/script/dom/model/EObjectProxy.java:428-444 | Only NAME and DOCUMENTATION write. NAME writes the name of a nameable object. DOCUMENTATION writes the documentation of a documentable referenced concept. Other keys issue no command. |
| EObjectProxies.EObjectProxy.SetAttr | com.archimatetool.script/src/com/archimatetool/script/dom/model/EObjectProxy.java:428-444 | Returns this proxy. Executes exactly the command `AttrCommand` gives, or changes nothing when there is none. |
| EObjectProxies.EObjectProxy.SetName | com.archimatetool.script/src/com/archimatetool/script/dom/model/EObjectProxy.java:123-125 | On a nameable object, `getName()` and `attr(NAME)` read back the name written, or null. Otherwise nothing changes. |
| EObjectProxies.EObjectProxy.Delete | com.archimatetool.script/src/com/archimatetool/script/dom/model/EObjectProxy.java:150-152 | The base `delete` always fails, as an unsupported operation. |
| EObjectProxies.EObjectProxy.Find | com.archimatetool.script/src/com/archimatetool/script/dom/model/EObjectProxy.java:157-172 | One new proxy of the factory's kind per wrappable descendant, in the order `eAllContents` visits them. Empty for a null object. |
| EObjectProxies.FoundNodesExactly | com.archimatetool.script/src/com/archimatetool/script/dom/model/EObjectProxy.java:157-172 | What `find()` wraps is exactly the set of proper descendants that have a proxy kind. |
| EObjectProxies.ProxiedMembership | com.archimatetool.script/src/com/archimatetool/script/dom/model/EObjectProxy.java:162-168 | The loop keeps a node exactly when it is in the walk and the factory gives it a proxy. |
| EObjectProxies.ProxiesOf | com.archimatetool.script/src/com/archimatetool/script/dom/model/EObjectProxy.java:162-168 | The loop yields a new proxy of the factory's kind for each wrappable node, order kept. |
| Graph.AllContentsBelow | com.archimatetool.script/src/com/archimatetool/script/dom/model/EObjectProxy.java:162 | Everything `eAllContents` yields is a proper descendant. |
| Graph.DescendantInAllContents | com.archimatetool.script/src/com/archimatetool/script/dom/model/EObjectProxy.java:162 | Every proper descendant is yielded by `eAllContents`. |
| EObjectProxies.EObjectProxy.FindEObject | com.archimatetool.script/src/com/archimatetool/script/dom/model/EObjectProxy.java:186-195 | At most one proxy. Empty exactly for a null or unwrappable object. Otherwise a new valid proxy of that object. |
| EObjectProxies.EObjectProxy.FindProxy | com.archimatetool.script/src/com/archimatetool/script/dom/model/EObjectProxy.java:201-209 | Empty for null, otherwise the given proxy alone. |
| EObjectProxies.EObjectProxy.GetPropertyKey | com.archimatetool.script/src/com/archimatetool/script/dom/model/EObjectProxy.java:346-358 | The loop returns the distinct keys in first-occurrence order. The result is empty without a property bag. |
| PropertyBag.DistinctKeys | com.archimatetool.script/src/com/archimatetool/script/dom/model/EObjectProxy.java:346-358 | No key is listed twice, and a key is listed exactly when some property has it. |
| PropertyBag.DistinctKeysInFirstOccurrenceOrder | com.archimatetool.script/src/com/archimatetool/script/dom/model/EObjectProxy.java:350-354 | Keys are listed in the order of their first occurrence in the bag. |
| PropertyBag.FirstIndex | com.archimatetool.script/src/com/archimatetool/script/dom/model/EObjectProxy.java:275 | The first position whose property has the key. No earlier position has it. |
| EObjectProxies.EObjectProxy.GetPropertyValue | com.archimatetool.script/src/com/archimatetool/script/dom/model/EObjectProxy.java:364-376 | The loop returns the values of the properties with the key, in bag order. The result is empty without a bag or for a null key. |
| PropertyBag.ValuesOfMembership | com.archimatetool.script/src/com/archimatetool/script/dom/model/EObjectProxy.java:364-376 | A value is listed for a key exactly when the bag holds that key/value pair. |
| PropertyBag.ValuesOfHead | com.archimatetool.script/src/com/archimatetool/script/dom/model/EObjectProxy.java:268-275 | When the key occurs, the value list is non-empty and starts with the value of the first occurrence. |
| EObjectProxies.EObjectProxy.Prop | com.archimatetool.script/src/com/archimatetool/script/dom/model/EObjectProxy.java:265-277 | Null exactly when no property has the key. Otherwise, with duplicates allowed, all matching values in order; if not, the first matching value. |
| EObjectProxies.EObjectProxy.AddProperty | com.archimatetool.script/src/com/archimatetool/script/dom/model/EObjectProxy.java:308-315 | With a bag and non-null key and value, exactly one (key, value) is appended by one command. Otherwise nothing changes. |
| EObjectProxies.EObjectProxy.AddOrUpdateProperty | com.archimatetool.script/src/com/archimatetool/script/dom/model/EObjectProxy.java:323-341 | With a bag and non-null key and value, the bag becomes `AddOrUpdate`. This is one value write per matching property, or one append when none matches. Otherwise nothing changes. |
| EObjectProxies.UpdateEach | com.archimatetool.script/src/com/archimatetool/script/dom/model/EObjectProxy.java:327-333 | Every property with the key gets the value, one command each, in order. The `updated` flag is true exactly when some property had the key. |
| EObjectProxies.UpdateCommandsSpec | com.archimatetool.script/src/com/archimatetool/script/dom/model/EObjectProxy.java:327-333 | The issued commands write the new value into exactly the positions whose key matches. |
| EObjectProxies.NoMatchNoUpdate | com.archimatetool.script/src/com/archimatetool/script/dom/model/EObjectProxy.java:335-337 | When no property has the key, the update loop issues no command and leaves the bag as it was, so `addOrUpdateProperty` appends. |
| PropertyBag.UpdateAll | com.archimatetool.script/src/com/archimatetool/script/dom/model/EObjectProxy.java:327-333 | Updating keeps the length. Each property gets the new value exactly when its key matches, and is otherwise unchanged. |
| PropertyBag.AddOrUpdateSpec | com.archimatetool.script/src/com/archimatetool/script/dom/model/EObjectProxy.java:323-341 | Afterwards the key is present and all its values are the new value. A single entry is added when the key was absent; the length is kept when it was present. Other keys' values are unchanged. |
| PropertyBag.AddOrUpdateOnlyValue | com.archimatetool.script/src/com/archimatetool/script/dom/model/EObjectProxy.java:323-341 | After the update, every value stored under the key is the new value. |
| PropertyBag.AddOrUpdateAppends | com.archimatetool.script/src/com/archimatetool/script/dom/model/EObjectProxy.java:335-337 | A key that was absent is present afterwards, with the new value as its only value. |
| PropertyBag.AddOrUpdateOtherKey | com.archimatetool.script/src/com/archimatetool/script/dom/model/EObjectProxy.java:323-341 | The values of every other key are unchanged. |
| PropertyBag.AddOrUpdateIdempotent | com.archimatetool.script/src/com/archimatetool/script/dom/model/EObjectProxy.java:323-341 | Setting the same key and value again changes nothing. |
| EObjectProxies.EObjectProxy.SetProp | com.archimatetool.script/src/com/archimatetool/script/dom/model/EObjectProxy.java:299-301 | With duplicates allowed, one append command. Otherwise the bag becomes `AddOrUpdate`, by an append command when the key is absent or one value command per matching property. A missing bag or a null key or value changes nothing. |
| EObjectProxies.EObjectProxy.RemoveProp | com.archimatetool.script/src/com/archimatetool/script/dom/model/EObjectProxy.java:390-407 | One removal command. The bag afterwards is `RemoveMatching`: the entries with the key (and the value, when one is given) are removed and the rest keep their order. Without a bag nothing changes. |
| EObjectProxies.CollectRemovals | com.archimatetool.script/src/com/archimatetool/script/dom/model/EObjectProxy.java:392-401 | The loop collects exactly `RemovalIndices`, the positions of the matching properties. |
| PropertyBag.RemovalIndices | com.archimatetool.script/src/com/archimatetool/script/dom/model/EObjectProxy.java:395-401 | Every collected index is in range and points at a matching property. |
| PropertyBag.RemoveCollected | com.archimatetool.script/src/com/archimatetool/script/dom/model/EObjectProxy.java:403 | Removing the collected positions removes exactly the matching properties, order kept. |
| PropertyBag.RemoveMatching | com.archimatetool.script/src/com/archimatetool/script/dom/model/EObjectProxy.java:390-407 | A property survives exactly when it was in the bag and does not match. |
| PropertyBag.RemoveMatchingSpec | com.archimatetool.script/src/com/archimatetool/script/dom/model/EObjectProxy.java:390-407 | No survivor matches, every non-matching entry survives, and removing with a null value leaves no value for the key. |
| PropertyBag.RemoveMatchingIdempotent | com.archimatetool.script/src/com/archimatetool/script/dom/model/EObjectProxy.java:390-407 | Removing a second time removes nothing more. |
| Commands.Document.Execute | com.archimatetool.script/src/com/archimatetool/script/dom/model/EObjectProxy.java:311 | Executing a command applies it and appends it to the log. The graph stays well formed, and no node changes type, capabilities or concept. |
| DiagramModelObjectProxies.Clamp | com.archimatetool.script/src/com/archimatetool/script/dom/model/DiagramModelObjectProxy.java:160-166 | The result lies in the range. A value in range is kept, and the result is the nearest point of the range. |
| DiagramModelObjectProxies.Coerce | com.archimatetool.script/src/com/archimatetool/script/dom/model/DiagramModelObjectProxy.java:194-197 | The result is the value or the default. It is the value exactly when that lies in range, and it lies in range when the default does. |
| DiagramModelObjectProxies.ResolveBounds | com.archimatetool.script/src/com/archimatetool/script/dom/model/DiagramModelObjectProxy.java:102-114 | Each coordinate comes from the map, with the current one as default. A resolved width or height of -1 becomes the configured default size. |
| DiagramModelObjectProxies.BoundsRoundTrip | com.archimatetool.script/src/com/archimatetool/script/dom/model/DiagramModelObjectProxy.java:90-120 | Writing the map `getBounds` produces writes back the same bounds, except that a size of -1 becomes the default. |
| DiagramModelObjectProxies.BoundsEmptyMap | com.archimatetool.script/src/com/archimatetool/script/dom/model/DiagramModelObjectProxy.java:102-114 | An empty map keeps the current bounds, except that a stored size of -1 becomes the default. |
| DiagramModelObjectProxies.ImagePathOf | com.archimatetool.script/src/com/archimatetool/script/dom/model/DiagramModelObjectProxy.java:348 | The path is non-null exactly when the map is non-null and holds a string under "path". |
| DiagramModelObjectProxies.DiagramModelObjectProxy.SetBounds | com.archimatetool.script/src/com/archimatetool/script/dom/model/DiagramModelObjectProxy.java:102-120 | Exactly one bounds command, with the resolved bounds. `getBounds` then returns those four values. |
| DiagramModelObjectProxies.DiagramModelObjectProxy.SetFillColor | com.archimatetool.script/src/com/archimatetool/script/dom/model/DiagramModelObjectProxy.java:149-154 | Throws exactly for a non-null colour the colour check refuses, and then writes nothing. Otherwise one write; null clears the colour. |
| DiagramModelObjectProxies.DiagramModelObjectProxy.SetOpacity | com.archimatetool.script/src/com/archimatetool/script/dom/model/DiagramModelObjectProxy.java:160-171 | Stores the value clamped into [0, 255], with one command. |
| DiagramModelObjectProxies.DiagramModelObjectProxy.SetOutlineOpacity | com.archimatetool.script/src/com/archimatetool/script/dom/model/DiagramModelObjectProxy.java:177-188 | Stores the value clamped into [0, 255], with one command. |
| DiagramModelObjectProxies.DiagramModelObjectProxy.SetGradient | com.archimatetool.script/src/com/archimatetool/script/dom/model/DiagramModelObjectProxy.java:194-204 | A value outside [-1, 3] becomes -1. It is written only when the gradient feature is exposed; otherwise nothing changes. |
| DiagramModelObjectProxies.DiagramModelObjectProxy.SetFigureType | com.archimatetool.script/src/com/archimatetool/script/dom/model/DiagramModelObjectProxy.java:206-223 | Stores the value clamped into [0, 1], only for an object of an ArchiMate concept with an alternate figure. Otherwise nothing changes. |
| DiagramModelObjectProxies.DiagramModelObjectProxy.SetTextAlignment | com.archimatetool.script/src/com/archimatetool/script/dom/model/DiagramModelObjectProxy.java:233-243 | Throws exactly for a value other than LEFT, CENTER or RIGHT, and then the stored alignment is unchanged. Otherwise that alignment is stored. |
| DiagramModelObjectProxies.DiagramModelObjectProxy.SetTextPosition | com.archimatetool.script/src/com/archimatetool/script/dom/model/DiagramModelObjectProxy.java:249-258 | A position outside TOP..BOTTOM becomes TOP. It is written only for an object with a text position. |
| DiagramModelObjectProxies.DiagramModelObjectProxy.SetShowIcon | com.archimatetool.script/src/com/archimatetool/script/dom/model/DiagramModelObjectProxy.java:272-286 | A state outside its range becomes the default. It is written only when the figure has an icon. |
| DiagramModelObjectProxies.DiagramModelObjectProxy.SetImageSource | com.archimatetool.script/src/com/archimatetool/script/dom/model/DiagramModelObjectProxy.java:297-310 | A source outside PROFILE..CUSTOM becomes the default. It is written only for an ArchiMate object that exposes the feature. |
| DiagramModelObjectProxies.DiagramModelObjectProxy.SetImagePosition | com.archimatetool.script/src/com/archimatetool/script/dom/model/DiagramModelObjectProxy.java:321-333 | A position outside TOP_LEFT..FILL becomes TOP_LEFT. It is written only for an iconic object that exposes the image path. |
| DiagramModelObjectProxies.DiagramModelObjectProxy.SetImage | com.archimatetool.script/src/com/archimatetool/script/dom/model/DiagramModelObjectProxy.java:344-359 | A null map, or one without "path", clears the image. A path the model does not store throws before any write. Ungated objects change nothing. |
| DiagramModelObjectProxies.DiagramModelObjectProxy.Attr | com.archimatetool.script/src/com/archimatetool/script/dom/model/DiagramModelObjectProxy.java:361-391 | Each visual key reads its getter: BOUNDS the four-key map of `getBounds`, FILL_COLOR the stored colour, and each integer key the value its getter returns, which the setters' read-backs pin down. TEXT_POSITION is an integer exactly with the capability, and IMAGE an image object exactly where exposed. Other keys read as the base proxy reads them. |
| DiagramModelObjectProxies.DiagramModelObjectProxy.AttrPlan | com.archimatetool.script/src/com/archimatetool/script/dom/model/DiagramModelObjectProxy.java:394-459 | A visual key with a value of the wrong shape writes nothing. A non-visual key is exactly the base proxy's command. The dispatch fails exactly when the setter rejects: NotFound for the image, InvalidArgument otherwise. Any write is by the setter of that key, on this object. |
| DiagramModelObjectProxies.DiagramModelObjectProxy.VisualPlan | com.archimatetool.script/src/com/archimatetool/script/dom/model/DiagramModelObjectProxy.java:395-456 | For a value of the right shape, it fails exactly when the setter rejects, with that setter's error. Any write is of that setter's attribute on this object. |
| DiagramModelObjectProxies.DiagramModelObjectProxy.IntPlan | com.archimatetool.script/src/com/archimatetool/script/dom/model/DiagramModelObjectProxy.java:406-450 | The integer setters never fail. Opacity and outline opacity always write; any write is of the key's attribute on this object. |
| DiagramModelObjectProxies.DiagramModelObjectProxy.AttrBoundsRoundTrip | com.archimatetool.script/src/com/archimatetool/script/dom/model/DiagramModelObjectProxy.java:364-398 | `attr(BOUNDS, attr(BOUNDS))` writes the current bounds back, except that a size of -1 becomes the default. |
| DiagramModelObjectProxies.DiagramModelObjectProxy.SetAttr | com.archimatetool.script/src/com/archimatetool/script/dom/model/DiagramModelObjectProxy.java:394-459 | Carries out `AttrPlan`. A failure changes nothing. A success returns this proxy and executes the planned command, if any. |
| DiagramModelObjectProxies.DiagramModelObjectProxy.SetVisual | com.archimatetool.script/src/com/archimatetool/script/dom/model/DiagramModelObjectProxy.java:395-456 | Carries out `VisualPlan` by calling the setter of the key. |
| DiagramModelObjectProxies.DiagramModelObjectProxy.SetInt | com.archimatetool.script/src/com/archimatetool/script/dom/model/DiagramModelObjectProxy.java:406-450 | Carries out `IntPlan` by calling the integer setter of the key, and returns this proxy. |
| DiagramModelObjectProxies.DiagramModelObjectProxy.Children | com.archimatetool.script/src/com/archimatetool/script/dom/model/DiagramModelObjectProxy.java:126-136 | One diagram-object proxy per diagram child of a container, in order. None for an object that is not a container. |
| DiagramModelObjectProxies.DiagramModelObjectProxy.Find | com.archimatetool.script/src/com/archimatetool/script/dom/model/DiagramModelObjectProxy.java:139-143 | Exactly the base `find()` results for which the element filter holds, order kept. |
| DiagramModelObjectProxies.DiagramModelObjectProxy.CheckContainer | com.archimatetool.script/src/com/archimatetool/script/dom/model/DiagramModelObjectProxy.java:50-78 | New children may be added exactly to a diagram container. Anything else throws. |
| DiagramModelObjectProxies.DiagramModelObjectProxy.Delete | com.archimatetool.script/src/com/archimatetool/script/dom/model/DiagramModelObjectProxy.java:462-478 | The commands executed are exactly `Cascade`, and the graph is what running them leaves. |
| DiagramModelObjectProxies.DiagramModelObjectProxy.DeleteOwnConnections | com.archimatetool.script/src/com/archimatetool/script/dom/model/DiagramModelObjectProxy.java:463-469 | Deletes the incoming connections, then the outgoing ones still present: one command each, in order. |
| DiagramModelObjectProxies.DiagramModelObjectProxy.DeleteAllChildren | com.archimatetool.script/src/com/archimatetool/script/dom/model/DiagramModelObjectProxy.java:471-473 | Runs the cascade of each diagram child in turn, as `children()` lists them. |
| DiagramModelObjectProxies.DiagramModelObjectProxy.DeleteChildren | com.archimatetool.script/src/com/archimatetool/script/dom/model/DiagramModelObjectProxy.java:471-473 | The loop over the children runs their cascades one after another, each on the state the previous ones left. |
| DiagramModelObjectProxies.DiagramModelObjectProxy.DeleteChild | com.archimatetool.script/src/com/archimatetool/script/dom/model/DiagramModelObjectProxy.java:472 | One turn of the children loop adds exactly that child's cascade. |
| DiagramModelObjectProxies.DeleteConnections | com.archimatetool.script/src/com/archimatetool/script/dom/model/DiagramModelObjectProxy.java:463-469 | One delete command per connection of the list, in order. |
| DiagramDelete.ConnectionDeletesEffect | com.archimatetool.script/src/com/archimatetool/script/dom/model/DiagramModelObjectProxy.java:463-469 | Deleting the connections one by one removes each of them from every node's connection lists. |
| Graph.DiagramObjectsIn | com.archimatetool.script/src/com/archimatetool/script/dom/model/DiagramModelObjectProxy.java:129-132 | The diagram children are exactly the contained nodes that are diagram objects. None is listed twice when the contents list has no duplicates. |
| Graph.Remove | com.archimatetool.script/src/com/archimatetool/script/dom/model/DiagramModelObjectProxy.java:475-477 | Detaching an object removes it, and only it, from its container's contents, keeping them duplicate-free. |
| Graph.WithoutAll | com.archimatetool.script/src/com/archimatetool/script/dom/model/DiagramModelObjectProxy.java:471-473 | The parent's contents, after its children are deleted, are exactly those not deleted. |
| DiagramDelete.ChildrenBelow | com.archimatetool.script/src/com/archimatetool/script/dom/model/DiagramModelObjectProxy.java:129-132 | The diagram children are distinct, lie below the object and are contained in it. |
| DiagramDelete.CascadeSpec | com.archimatetool.script/src/com/archimatetool/script/dom/model/DiagramModelObjectProxy.java:462-478 | After the cascade the graph is well formed. The object is detached, with no connections and no diagram children. Outside its subtree only the container's contents lost it. Only the object and its descendants are deleted, and the object is deleted exactly when it had a container. |
| DiagramDelete.CascadeChildrenSpec | com.archimatetool.script/src/com/archimatetool/script/dom/model/DiagramModelObjectProxy.java:471-473 | The cascades of the children delete every child and only objects below the parent. The parent keeps its container and loses exactly those children. |
| DiagramDelete.CascadeOrder | com.archimatetool.script/src/com/archimatetool/script/dom/model/DiagramModelObjectProxy.java:462-478 | The cascade begins with the incoming connection deletes, then the outgoing ones left over. It ends with the self-delete exactly when the object has a container. |
| DiagramDelete.SelfPartSpec | com.archimatetool.script/src/com/archimatetool/script/dom/model/DiagramModelObjectProxy.java:475-477 | The last part of the cascade is the self-delete alone when the object had a container, and empty otherwise. |
| DiagramDelete.SelfDeleteIff | com.archimatetool.script/src/com/archimatetool/script/dom/model/DiagramModelObjectProxy.java:475-477 | The self-delete is issued exactly when the object has a container. |
| DiagramDelete.CascadeOfGone | com.archimatetool.script/src/com/archimatetool/script/dom/model/DiagramModelObjectProxy.java:462-478 | The cascade of a detached object without connections or children issues nothing. |
| DiagramDelete.DeleteTwice | com.archimatetool.script/src/com/archimatetool/script/dom/model/DiagramModelObjectProxy.java:475-477 | After one delete the object has no container, and a second delete issues no command, in particular no second self-delete. |
| ArchimateConceptProxies.FindProfile | com.archimatetool.script.tests/src/com/archimatetool/script/dom/model/ArchimateConceptProxyTests.java:39-43 | Finds the first declaration with that name and type, and none exactly when there is no such declaration. |
| ArchimateConceptProxies.SpecializationRule | com.archimatetool.script.tests/src/com/archimatetool/script/dom/model/ArchimateConceptProxyTests.java:34-69 | Succeeds exactly for null, or for a non-empty name declared for the concept's own type, and then takes that name. The empty name, an undeclared name and a name declared only for other types each fail. |
| ArchimateConceptProxies.DeclareThenSet | com.archimatetool.script.tests/src/com/archimatetool/script/dom/model/ArchimateConceptProxyTests.java:38-58 | After declaring a name for a type it is accepted for that type. It is refused with a type mismatch for another type that does not declare it. |
| ArchimateConceptProxies.EnclosingModelOfSameContainers | com.archimatetool.script.tests/src/com/archimatetool/script/dom/model/ArchimateConceptProxyTests.java:39-43 | The model a concept lies in depends only on types and containment, so attribute commands do not move it. |
| ArchimateConceptProxies.ProfilesOfSame | com.archimatetool.script.tests/src/com/archimatetool/script/dom/model/ArchimateConceptProxyTests.java:39-43 | Two graphs that agree on containment and declarations give a concept the same declarations. |
| ArchimateConceptProxies.SpecializationWrite | com.archimatetool.script.tests/src/com/archimatetool/script/dom/model/ArchimateConceptProxyTests.java:42-43 | Writing the specialization sets it and keeps the type and the declarations the rule reads. |
| ArchimateConceptProxies.ProfileAdded | com.archimatetool.script.tests/src/com/archimatetool/script/dom/model/ArchimateConceptProxyTests.java:39 | Declaring in the concept's model appends to the concept's declarations and keeps its model, specialization and type. |
| ArchimateConceptProxies.CreateSpecialization | com.archimatetool.script.tests/src/com/archimatetool/script/dom/model/ArchimateConceptProxyTests.java:39 | One command appends the (name, type) declaration to the model's list. |
| ArchimateConceptProxies.ArchimateConceptProxy.GetConcept | com.archimatetool.script.tests/src/com/archimatetool/script/dom/model/ArchimateConceptProxyTests.java:25-28 | A concept proxy's concept is the proxy itself. |
| ArchimateConceptProxies.ArchimateConceptProxy.SetSpecialization | com.archimatetool.script.tests/src/com/archimatetool/script/dom/model/ArchimateConceptProxyTests.java:34-69 | Fails exactly when the rule refuses, with the rule's error and no change. Otherwise it returns this proxy and `getSpecialization` reads back the name (or null). The declarations and the type are kept, with one command. |
| ArchimateConceptProxies.Declare | com.archimatetool.script.tests/src/com/archimatetool/script/dom/model/ArchimateConceptProxyTests.java:39 | The test's `createSpecialization` leaves the concept as it was and adds the declaration to what its rule reads. |
| ArchimateConceptProxies.DeclareSetAndClear | com.archimatetool.script.tests/src/com/archimatetool/script/dom/model/ArchimateConceptProxyTests.java:34-47 | A fresh concept, after "Special" is declared for its own type, reads back "Special" once it is set, and null once it is cleared. |
| ArchimateConceptProxies.DeclaredForOtherType | com.archimatetool.script.tests/src/com/archimatetool/script/dom/model/ArchimateConceptProxyTests.java:49-58 | A name declared only for "node" is refused for a concept of another type, which keeps no specialization. |
| ArchimateConceptProxies.Undeclared | com.archimatetool.script.tests/src/com/archimatetool/script/dom/model/ArchimateConceptProxyTests.java:60-64 | An undeclared name is refused and the concept keeps no specialization. |
| ArchimateConceptProxies.EmptyName | com.archimatetool.script.tests/src/com/archimatetool/script/dom/model/ArchimateConceptProxyTests.java:66-69 | The empty name is refused as an invalid argument and changes nothing. |
| ArchimateConceptProxies.SameConcept | com.archimatetool.script.tests/src/com/archimatetool/script/dom/model/ArchimateConceptProxyTests.java:25-28 | `getConcept()` gives back the very proxy it is called on. |

## Left out

- Undo and redo: a command is modelled as its immediate effect plus an entry in the document's log. The command stack itself is not part of this model.
- Connection deletion: `inRels`, `outRels` and the connection proxy's own `delete` live in classes that are not part of this model. Deleting a connection is one `DeleteConnection` command, which removes it from every connection list. Its own cascade is not modelled.
- `DiagramModelObjectProxies.DiagramModelObjectProxy.Find`: `EObjectProxyCollection.filter(ELEMENT)` is not part of this model. The selector is taken as a predicate parameter `isElement`.
- `EObjectProxies.EObjectProxy.Parents`: the recursive `list.add(list.parents())` of the collection class is not part of this model. The model pins down when `parents()` is null and what it holds (`ParentsSpec`), not the flattening the collection does.
- `find(String selector)`: it is `find().filter(selector)`, and the collection's selector filtering is not part of this model.
- Collaborators outside the model are inputs. `ModelUtil.shouldExposeFeature` is the exposed-feature set of each node. The `hasIcon` and `hasAlternateFigure` results of the UI providers are capability flags. `ModelUtil.hasImage` is the model's set of stored images; `checkColorValue` and the kebab-case spelling are functions fixed in the `Document`; the preference-store default figure sizes are constants of the `Document`.
- `getImage`: `ModelFactory.createImageObject` is not part of this model. The image is represented by its path.
- `add`, `createObject` and `createViewReference`: the `ModelFactory` calls are not part of this model; only the container guard is (`CheckContainer`).
- `ArchimateConceptProxy` itself is not part of this model. The specialization rule follows the tests. The error kinds (InvalidArgument, NotFound, TypeMismatch) only name the reason; the source throws one `ArchiScriptException` class for all of them.
- `createSpecialization`: its own argument checks and the image argument are not modelled. It is one command that appends the declaration.
- `EObjectProxies.EObjectProxy.SetAttr`, `DiagramModelObjectProxies.DiagramModelObjectProxy.AttrPlan` and `DiagramModelObjectProxies.DiagramModelObjectProxy.SetAttr`: for NAME and DOCUMENTATION the value must be a string or null. The Java `SetCommand` would store any object there, and a non-string value is not modelled.
- EObjectProxies.EObjectProxy.AddOrUpdateProperty: a stored property has a non-null key and value in this model. In Java, a stored property with a null key makes `addOrUpdateProperty` fail with a null dereference (line 328); that failure is not modelled.
- EObjectProxies.EObjectProxy.GetPropertyValue: a stored property with a null key fails with a null dereference in Java (line 369); the model has no such property.
- EObjectProxies.EObjectProxy.RemoveProp: a stored property with a null key (line 396) or, when a value is given, with a null value (line 397) fails with a null dereference in Java; the model has no such property.
- Java casts that fail with `ClassCastException` (for example `(String)attr(NAME)` on a non-string) are not modelled; the getters return the modelled value types.
- `getId`, `getName`, `getDocumentation` and `setDocumentation` are one-line wrappers of `attr`, modelled through `Attr`, `AttrCommand` and `SetName`.
- `toString`, localised messages (`NLS.bind`, `Messages`) and the class names shown to scripts are not modelled; `eClass().getName()` is an opaque type tag.
- Integer width: Java `int` arguments are unbounded integers here. No setter computes with them beyond comparisons, so no wrap-around can occur.
- The file-tree and script-viewer UI classes are not part of this model.
