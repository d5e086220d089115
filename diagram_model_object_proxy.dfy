/**
 * `DiagramModelObjectProxy`: the proxy of a box on a view. Its visual
 * attributes are validated one by one: clamped into a range, coerced to a
 * default, rejected with an exception, or skipped when the object does not
 * have the capability. Each accepted write is one command on the document.
 */
module DiagramModelObjectProxies {
  import opened Wrappers
  import opened Graph
  import opened Commands
  import opened ProxyFactory
  import opened ScriptValues
  import opened EObjectProxies
  import opened DiagramDelete

  // ---------------------------------------------------------------------------
  // Constants of the Archi model interfaces

  const TextAlignmentLeft := 1
  const TextAlignmentCenter := 2
  const TextAlignmentRight := 4

  const TextPositionTop := 0
  const TextPositionCentre := 1
  const TextPositionBottom := 2

  const IconVisibleIfNoImageDefined := 0
  const IconVisibleAlways := 1
  const IconVisibleNever := 2
  const IconVisibleDefault := IconVisibleIfNoImageDefined

  const ImageSourceProfile := 0
  const ImageSourceCustom := 1
  const ImageSourceDefault := ImageSourceProfile

  const IconPositionTopLeft := 0
  const IconPositionFill := 9

  const GradientNone := -1
  const GradientMax := 3

  const AlphaMax := 255

  // ---------------------------------------------------------------------------
  // Normalisation of script input

  function Dist(a: int, b: int): nat {
    if a <= b then b - a else a - b
  }

  /** The value of `[lo, hi]` nearest to `v`. */
  function Clamp(v: int, lo: int, hi: int): (r: int)
    requires lo <= hi
    ensures lo <= r <= hi
    ensures lo <= v <= hi ==> r == v
    ensures forall w :: lo <= w <= hi ==> Dist(r, v) <= Dist(w, v)
  {
    if v < lo then lo else if v > hi then hi else v
  }

  /** `v` when it lies in `[lo, hi]`, otherwise the default `d`. */
  function Coerce(v: int, lo: int, hi: int, d: int): (r: int)
    ensures lo <= d <= hi ==> lo <= r <= hi
    ensures r == v || r == d
    ensures lo <= v <= hi ==> r == v
    ensures r != v ==> v < lo || hi < v
  {
    if v < lo || v > hi then d else v
  }

  predicate ValidTextAlignment(a: int) {
    a == TextAlignmentLeft || a == TextAlignmentCenter || a == TextAlignmentRight
  }

  /** What `getBounds` returns. */
  function BoundsMap(b: Bounds): map<string, Value> {
    map["x" := Int(b.x), "y" := Int(b.y), "width" := Int(b.width), "height" := Int(b.height)]
  }

  /** The bounds `setBounds(m)` writes: each coordinate from the map,
      defaulting to the current one, and a width or height of -1 replaced by
      the configured default size. */
  function ResolveBounds(cur: Bounds, m: map<string, Value>, dw: int, dh: int): (r: Bounds)
    ensures r.x == IntFromMap(m, "x", cur.x) && r.y == IntFromMap(m, "y", cur.y)
    ensures r.width == (if IntFromMap(m, "width", cur.width) == -1 then dw else IntFromMap(m, "width", cur.width))
    ensures r.height == (if IntFromMap(m, "height", cur.height) == -1 then dh else IntFromMap(m, "height", cur.height))
  {
    var w := IntFromMap(m, "width", cur.width);
    var h := IntFromMap(m, "height", cur.height);
    Bounds(IntFromMap(m, "x", cur.x), IntFromMap(m, "y", cur.y),
           if w == -1 then dw else w, if h == -1 then dh else h)
  }

  /** Writing the map `getBounds` returns writes back the same bounds, unless
      a size is -1, which becomes the configured default. */
  lemma BoundsRoundTrip(cur: Bounds, b: Bounds, dw: int, dh: int)
    ensures ResolveBounds(cur, BoundsMap(b), dw, dh) ==
              Bounds(b.x, b.y, if b.width == -1 then dw else b.width, if b.height == -1 then dh else b.height)
  {
    var m := BoundsMap(b);
    assert "x" in m && m["x"] == Int(b.x);
    assert "y" in m && m["y"] == Int(b.y);
    assert "width" in m && m["width"] == Int(b.width);
    assert "height" in m && m["height"] == Int(b.height);
  }

  /** An empty map keeps the current bounds, except a stored size of -1,
      which is replaced by the default. */
  lemma BoundsEmptyMap(cur: Bounds, dw: int, dh: int)
    ensures ResolveBounds(cur, map[], dw, dh) ==
              cur.(width := if cur.width == -1 then dw else cur.width,
                   height := if cur.height == -1 then dh else cur.height)
  {
  }

  /** The path `setImage(map)` writes: the "path" string of the map, or none. */
  function ImagePathOf(m: Option<map<string, Value>>): (r: Option<string>)
    ensures r.Some? <==> m.Some? && "path" in m.value && m.value["path"].Str?
  {
    if m.Some? then StringFromMap(m.value, "path") else None
  }

  // ---------------------------------------------------------------------------
  // The proxy

  class DiagramModelObjectProxy {
    /** The base-proxy part of this object (what the superclasses provide). */
    const base: EObjectProxy
    const doc: Document
    const node: NodeId

    ghost predicate Valid()
      reads doc
    {
      Hosted(this, doc) && base.Valid()
    }

    constructor (p: EObjectProxy, n: NodeId)
      requires p.node == Some(n)
      ensures base == p && doc == p.doc && node == n
    {
      base := p;
      doc := p.doc;
      node := n;
    }

    function Data(): NodeData
      requires Valid()
      reads doc
    {
      doc.nodes[node]
    }

    function Attributes(): Attrs
      requires Valid()
      reads doc
    {
      doc.nodes[node].attrs
    }

    // -------------------------------------------------------------------------
    // Capability gates

    /** `isArchimateConcept`: the object is a diagram object of an ArchiMate concept. */
    predicate IsArchimateConcept()
      requires Valid()
      reads doc
    {
      DiagramModelArchimateObject in Data().ifaces
    }

    /** The concept the object stands for has an alternate figure. */
    predicate HasAlternateFigure()
      requires Valid()
      reads doc
    {
      IsArchimateConcept() &&
        assert KindOk(doc.nodes, node);
        doc.nodes[Data().concept.value].caps.hasAlternateFigure
    }

    predicate GradientExposed()
      requires Valid()
      reads doc
    {
      GradientFeature in Data().caps.exposed
    }

    predicate HasTextPosition()
      requires Valid()
      reads doc
    {
      TextPosition in Data().ifaces
    }

    predicate HasIcon()
      requires Valid()
      reads doc
    {
      Data().caps.hasIcon
    }

    predicate ImageSourceExposed()
      requires Valid()
      reads doc
    {
      IsArchimateConcept() && ImageSourceFeature in Data().caps.exposed
    }

    predicate ImagePositionExposed()
      requires Valid()
      reads doc
    {
      Iconic in Data().ifaces && ImagePathFeature in Data().caps.exposed
    }

    predicate ImageExposed()
      requires Valid()
      reads doc
    {
      ImageProvider in Data().ifaces && ImagePathFeature in Data().caps.exposed
    }

    /** The images stored with the enclosing model (`ModelUtil.hasImage`). */
    function ModelImages(): set<string>
      requires Valid()
      reads doc
    {
      var m := EnclosingModel(doc.nodes, doc.rank, Some(node));
      if m.Some? && m.value in doc.nodes then doc.nodes[m.value].attrs.images else {}
    }

    // -------------------------------------------------------------------------
    // Getters

    function GetBounds(): map<string, Value>
      requires Valid()
      reads doc
    {
      BoundsMap(Attributes().bounds)
    }

    function GetFillColor(): Option<string>
      requires Valid()
      reads doc
    {
      Attributes().fillColor
    }

    function GetOpacity(): int
      requires Valid()
      reads doc
    {
      Attributes().alpha
    }

    function GetOutlineOpacity(): int
      requires Valid()
      reads doc
    {
      Attributes().lineAlpha
    }

    function GetGradient(): int
      requires Valid()
      reads doc
    {
      Attributes().gradient
    }

    /** The figure type; 0 for an object that is not of an ArchiMate concept. */
    function GetFigureType(): int
      requires Valid()
      reads doc
    {
      if IsArchimateConcept() then Attributes().figureType else 0
    }

    function GetTextAlignment(): int
      requires Valid()
      reads doc
    {
      Attributes().textAlignment
    }

    /** The text position; null for an object without one. */
    function GetTextPosition(): Value
      requires Valid()
      reads doc
    {
      if HasTextPosition() then Int(Attributes().textPosition) else Null
    }

    function GetShowIcon(): int
      requires Valid()
      reads doc
    {
      Attributes().iconVisible
    }

    /** The image source; -1 where the feature is not offered. */
    function GetImageSource(): int
      requires Valid()
      reads doc
    {
      if ImageSourceExposed() then Attributes().imageSource else -1
    }

    /** The image position; -1 where the feature is not offered. */
    function GetImagePosition(): int
      requires Valid()
      reads doc
    {
      if ImagePositionExposed() then Attributes().imagePosition else -1
    }

    /** The image object of the image path; null where the feature is not offered. */
    function GetImage(): Value
      requires Valid()
      reads doc
    {
      if ImageExposed() then ImageObject(Attributes().imagePath) else Null
    }

    // -------------------------------------------------------------------------
    // Writing

    /** Execute an attribute command on this object. */
    method Write(c: Command)
      requires Valid() && c.node == node && !IsStructural(c)
      modifies doc
      ensures Valid() && doc.rank == old(doc.rank)
      ensures doc.nodes == Apply(old(doc.nodes), c) && doc.log == old(doc.log) + [c]
      ensures doc.nodes == old(doc.nodes)[node := old(Data()).(attrs := Update(old(Attributes()), c))]
    {
      doc.Execute(c);
    }

    /** `setBounds`: one bounds write, after which `getBounds` returns them. */
    method SetBounds(m: map<string, Value>) returns (self: DiagramModelObjectProxy)
      requires Valid()
      modifies doc
      ensures self == this && Valid() && doc.rank == old(doc.rank)
      ensures var b := ResolveBounds(old(Attributes().bounds), m, doc.defaultWidth, doc.defaultHeight);
              && doc.nodes == Apply(old(doc.nodes), Commands.SetBounds(node, b))
              && doc.log == old(doc.log) + [Commands.SetBounds(node, b)]
              && GetBounds() == BoundsMap(b)
    {
      var b := Attributes().bounds;
      var x := IntFromMap(m, "x", b.x);
      var y := IntFromMap(m, "y", b.y);
      var width := IntFromMap(m, "width", b.width);
      var height := IntFromMap(m, "height", b.height);
      if width == -1 {
        width := doc.defaultWidth;
      }
      if height == -1 {
        height := doc.defaultHeight;
      }
      Write(Commands.SetBounds(node, Bounds(x, y, width, height)));
      self := this;
    }

    /** `setFillColor`: a colour string the colour check refuses throws before
        any write; null is allowed and clears the colour. */
    method SetFillColor(value: Option<string>) returns (r: Result<DiagramModelObjectProxy, ScriptError>)
      requires Valid()
      modifies doc
      ensures Valid() && doc.rank == old(doc.rank)
      ensures r.Failure? <==> value.Some? && !doc.validColor(value.value)
      ensures r.Failure? ==> r.error == InvalidArgument && doc.nodes == old(doc.nodes) && doc.log == old(doc.log)
      ensures r.Success? ==> r.value == this && GetFillColor() == value
                             && doc.nodes == Apply(old(doc.nodes), Commands.SetFillColor(node, value))
                             && doc.log == old(doc.log) + [Commands.SetFillColor(node, value)]
    {
      if value.Some? && !doc.validColor(value.value) {
        return Failure(InvalidArgument);
      }
      Write(Commands.SetFillColor(node, value));
      r := Success(this);
    }

    /** `setOpacity`: the value clamped into `[0, 255]`. */
    method SetOpacity(value: int) returns (self: DiagramModelObjectProxy)
      requires Valid()
      modifies doc
      ensures self == this && Valid() && doc.rank == old(doc.rank)
      ensures doc.nodes == Apply(old(doc.nodes), SetAlpha(node, Clamp(value, 0, AlphaMax)))
      ensures doc.log == old(doc.log) + [SetAlpha(node, Clamp(value, 0, AlphaMax))]
      ensures GetOpacity() == Clamp(value, 0, AlphaMax)
    {
      var v := value;
      if v < 0 {
        v := 0;
      }
      if v > AlphaMax {
        v := AlphaMax;
      }
      Write(SetAlpha(node, v));
      self := this;
    }

    /** `setOutlineOpacity`: the value clamped into `[0, 255]`. */
    method SetOutlineOpacity(value: int) returns (self: DiagramModelObjectProxy)
      requires Valid()
      modifies doc
      ensures self == this && Valid() && doc.rank == old(doc.rank)
      ensures doc.nodes == Apply(old(doc.nodes), SetLineAlpha(node, Clamp(value, 0, AlphaMax)))
      ensures doc.log == old(doc.log) + [SetLineAlpha(node, Clamp(value, 0, AlphaMax))]
      ensures GetOutlineOpacity() == Clamp(value, 0, AlphaMax)
    {
      var v := value;
      if v < 0 {
        v := 0;
      }
      if v > AlphaMax {
        v := AlphaMax;
      }
      Write(SetLineAlpha(node, v));
      self := this;
    }

    /** `setGradient`: a value outside `[-1, 3]` becomes -1 (no gradient);
        nothing is written when the feature is not exposed. */
    method SetGradient(value: int) returns (self: DiagramModelObjectProxy)
      requires Valid()
      modifies doc
      ensures self == this && Valid() && doc.rank == old(doc.rank)
      ensures old(GradientExposed()) ==>
                var v := Coerce(value, GradientNone, GradientMax, GradientNone);
                && doc.nodes == Apply(old(doc.nodes), Commands.SetGradient(node, v))
                && doc.log == old(doc.log) + [Commands.SetGradient(node, v)]
                && GetGradient() == v
      ensures !old(GradientExposed()) ==> doc.nodes == old(doc.nodes) && doc.log == old(doc.log)
    {
      var v := value;
      if v < GradientNone || v > GradientMax {
        v := GradientNone;
      }
      if GradientExposed() {
        Write(Commands.SetGradient(node, v));
      }
      self := this;
    }

    /** `setFigureType`: the value clamped into `[0, 1]`, written only for an
        object of an ArchiMate concept whose figure has an alternative. */
    method SetFigureType(value: int) returns (self: DiagramModelObjectProxy)
      requires Valid()
      modifies doc
      ensures self == this && Valid() && doc.rank == old(doc.rank)
      ensures old(HasAlternateFigure()) ==>
                && doc.nodes == Apply(old(doc.nodes), Commands.SetFigureType(node, Clamp(value, 0, 1)))
                && doc.log == old(doc.log) + [Commands.SetFigureType(node, Clamp(value, 0, 1))]
                && GetFigureType() == Clamp(value, 0, 1)
      ensures !old(HasAlternateFigure()) ==> doc.nodes == old(doc.nodes) && doc.log == old(doc.log)
    {
      if IsArchimateConcept() {
        assert KindOk(doc.nodes, node);
        if doc.nodes[Data().concept.value].caps.hasAlternateFigure {
          var v := value;
          if v < 0 {
            v := 0;
          }
          if v > 1 {
            v := 1;
          }
          Write(Commands.SetFigureType(node, v));
        }
      }
      self := this;
    }

    /** `setTextAlignment`: anything but left, center or right throws before
        any write. */
    method SetTextAlignment(alignment: int) returns (r: Result<DiagramModelObjectProxy, ScriptError>)
      requires Valid()
      modifies doc
      ensures Valid() && doc.rank == old(doc.rank)
      ensures r.Failure? <==> !ValidTextAlignment(alignment)
      ensures r.Failure? ==> r.error == InvalidArgument && doc.nodes == old(doc.nodes) && doc.log == old(doc.log)
      ensures r.Success? ==> r.value == this && GetTextAlignment() == alignment
                             && doc.nodes == Apply(old(doc.nodes), Commands.SetTextAlignment(node, alignment))
                             && doc.log == old(doc.log) + [Commands.SetTextAlignment(node, alignment)]
    {
      if alignment != TextAlignmentCenter && alignment != TextAlignmentLeft && alignment != TextAlignmentRight {
        return Failure(InvalidArgument);
      }
      Write(Commands.SetTextAlignment(node, alignment));
      r := Success(this);
    }

    /** `setTextPosition`: a position outside top..bottom becomes top;
        nothing is written for an object without a text position. */
    method SetTextPosition(position: int) returns (self: DiagramModelObjectProxy)
      requires Valid()
      modifies doc
      ensures self == this && Valid() && doc.rank == old(doc.rank)
      ensures old(HasTextPosition()) ==>
                var v := Coerce(position, TextPositionTop, TextPositionBottom, TextPositionTop);
                && doc.nodes == Apply(old(doc.nodes), Commands.SetTextPosition(node, v))
                && doc.log == old(doc.log) + [Commands.SetTextPosition(node, v)]
                && GetTextPosition() == Int(v)
      ensures !old(HasTextPosition()) ==> doc.nodes == old(doc.nodes) && doc.log == old(doc.log)
    {
      if HasTextPosition() {
        var v := position;
        if v < TextPositionTop || v > TextPositionBottom {
          v := TextPositionTop;
        }
        Write(Commands.SetTextPosition(node, v));
      }
      self := this;
    }

    /** `setShowIcon`: a state outside its range becomes the default; nothing
        is written for an object whose figure has no icon. */
    method SetShowIcon(value: int) returns (self: DiagramModelObjectProxy)
      requires Valid()
      modifies doc
      ensures self == this && Valid() && doc.rank == old(doc.rank)
      ensures old(HasIcon()) ==>
                var v := Coerce(value, IconVisibleIfNoImageDefined, IconVisibleNever, IconVisibleDefault);
                && doc.nodes == Apply(old(doc.nodes), SetIconVisible(node, v))
                && doc.log == old(doc.log) + [SetIconVisible(node, v)]
                && GetShowIcon() == v
      ensures !old(HasIcon()) ==> doc.nodes == old(doc.nodes) && doc.log == old(doc.log)
    {
      if HasIcon() {
        var v := value;
        if v < IconVisibleIfNoImageDefined || v > IconVisibleNever {
          v := IconVisibleDefault;
        }
        Write(SetIconVisible(node, v));
      }
      self := this;
    }

    /** `setImageSource`: a source other than profile or custom becomes the
        default; written only where the feature is offered. */
    method SetImageSource(value: int) returns (self: DiagramModelObjectProxy)
      requires Valid()
      modifies doc
      ensures self == this && Valid() && doc.rank == old(doc.rank)
      ensures old(ImageSourceExposed()) ==>
                var v := Coerce(value, ImageSourceProfile, ImageSourceCustom, ImageSourceDefault);
                && doc.nodes == Apply(old(doc.nodes), Commands.SetImageSource(node, v))
                && doc.log == old(doc.log) + [Commands.SetImageSource(node, v)]
                && GetImageSource() == v
      ensures !old(ImageSourceExposed()) ==> doc.nodes == old(doc.nodes) && doc.log == old(doc.log)
    {
      if ImageSourceExposed() {
        var v := value;
        if v < ImageSourceProfile || v > ImageSourceCustom {
          v := ImageSourceDefault;
        }
        Write(Commands.SetImageSource(node, v));
      }
      self := this;
    }

    /** `setImagePosition`: a position outside top-left..fill becomes
        top-left; written only where the feature is offered. */
    method SetImagePosition(value: int) returns (self: DiagramModelObjectProxy)
      requires Valid()
      modifies doc
      ensures self == this && Valid() && doc.rank == old(doc.rank)
      ensures old(ImagePositionExposed()) ==>
                var v := Coerce(value, IconPositionTopLeft, IconPositionFill, IconPositionTopLeft);
                && doc.nodes == Apply(old(doc.nodes), Commands.SetImagePosition(node, v))
                && doc.log == old(doc.log) + [Commands.SetImagePosition(node, v)]
                && GetImagePosition() == v
      ensures !old(ImagePositionExposed()) ==> doc.nodes == old(doc.nodes) && doc.log == old(doc.log)
    {
      if ImagePositionExposed() {
        var v := value;
        if v < IconPositionTopLeft || v > IconPositionFill {
          v := IconPositionTopLeft;
        }
        Write(Commands.SetImagePosition(node, v));
      }
      self := this;
    }

    /** `setImage`: the "path" of the map, or none for a null map or a map
        without one; a path the model does not store throws before any write. */
    method SetImage(m: Option<map<string, Value>>) returns (r: Result<DiagramModelObjectProxy, ScriptError>)
      requires Valid()
      modifies doc
      ensures Valid() && doc.rank == old(doc.rank)
      ensures r.Failure? <==> old(ImageExposed()) && ImagePathOf(m).Some? && ImagePathOf(m).value !in old(ModelImages())
      ensures r.Failure? ==> r.error == NotFound
      ensures r.Success? ==> r.value == this
      ensures r.Success? && old(ImageExposed()) ==>
                && GetImage() == ImageObject(ImagePathOf(m))
                && doc.nodes == Apply(old(doc.nodes), SetImagePath(node, ImagePathOf(m)))
                && doc.log == old(doc.log) + [SetImagePath(node, ImagePathOf(m))]
      ensures r.Failure? || !old(ImageExposed()) ==> doc.nodes == old(doc.nodes) && doc.log == old(doc.log)
    {
      if ImageExposed() {
        var path := if m.Some? then StringFromMap(m.value, "path") else None;
        if path.Some? && path.value !in ModelImages() {
          return Failure(NotFound);
        }
        Write(SetImagePath(node, path));
      }
      r := Success(this);
    }

    // -------------------------------------------------------------------------
    // The `attr` dispatch

    /** `attr(key)`: the visual attributes by their getters; every other key
        as the base proxy reads it. */
    function Attr(key: AttrKey): (r: Value)
      requires Valid()
      reads doc
      ensures key == BoundsKey ==> r == Dict(GetBounds()) && r.entries.Keys == {"x", "y", "width", "height"}
      ensures key == FillColorKey ==> IsText(r) && AsText(r) == GetFillColor()
      ensures key == OpacityKey ==> r == Int(GetOpacity())
      ensures key == OutlineOpacityKey ==> r == Int(GetOutlineOpacity())
      ensures key == GradientKey ==> r == Int(GetGradient())
      ensures key == FigureTypeKey ==> r == Int(GetFigureType())
      ensures key == TextAlignmentKey ==> r == Int(GetTextAlignment())
      ensures key == ShowIconKey ==> r == Int(GetShowIcon())
      ensures key == ImageSourceKey ==> r == Int(GetImageSource())
      ensures key == ImagePositionKey ==> r == Int(GetImagePosition())
      ensures key == TextPositionKey ==> r == GetTextPosition() && (r.Int? <==> HasTextPosition())
      ensures key == ImageKey ==> r == GetImage() && (r.ImageObject? <==> ImageExposed())
      ensures !IsVisual(key) ==> r == base.Attr(key)
    {
      match key
      case BoundsKey => Dict(GetBounds())
      case FillColorKey => if GetFillColor().Some? then Str(GetFillColor().value) else Null
      case OpacityKey => Int(GetOpacity())
      case OutlineOpacityKey => Int(GetOutlineOpacity())
      case GradientKey => Int(GetGradient())
      case FigureTypeKey => Int(GetFigureType())
      case TextAlignmentKey => Int(GetTextAlignment())
      case TextPositionKey => GetTextPosition()
      case ShowIconKey => Int(GetShowIcon())
      case ImageSourceKey => Int(GetImageSource())
      case ImagePositionKey => Int(GetImagePosition())
      case ImageKey => GetImage()
      case _ => base.Attr(key)
    }

    /** What `attr(key, value)` does: fail, or write one command or none. A
        value of the shape a visual key's setter takes goes to that setter;
        any other pair goes to the base proxy. */
    function AttrPlan(key: AttrKey, value: Value): (r: Result<Option<Command>, ScriptError>)
      requires Valid() && ((key == NameKey || key == DocumentationKey) ==> IsText(value))
      reads doc
      ensures IsVisual(key) && !ShapeFits(key, value) ==> r == Success(None)
      ensures !IsVisual(key) ==> r == Success(base.AttrCommand(key, value))
      ensures r.Failure? <==> IsVisual(key) && ShapeFits(key, value) && Rejects(key, value)
      ensures r.Failure? ==> r.error == (if key == ImageKey then NotFound else InvalidArgument)
      ensures IsVisual(key) && r.Success? && r.value.Some? ==> r.value.value.node == node && Writes(key, r.value.value)
    {
      if !IsVisual(key) then Success(base.AttrCommand(key, value))
      else if !ShapeFits(key, value) then Success(None)
      else VisualPlan(key, value)
    }

    /** The setters' reasons to throw: a colour the colour check refuses, an
        alignment other than left, center or right, an image path the model
        does not store. */
    predicate Rejects(key: AttrKey, value: Value)
      requires Valid() && IsVisual(key) && ShapeFits(key, value)
      reads doc
    {
      match key
      case FillColorKey => value.Str? && !doc.validColor(value.s)
      case TextAlignmentKey => !ValidTextAlignment(value.i)
      case ImageKey =>
        ImageExposed() && ImagePathOf(Some(value.entries)).Some? && ImagePathOf(Some(value.entries)).value !in ModelImages()
      case _ => false
    }

    /** The plan of a visual key for a value of the shape its setter takes. */
    function VisualPlan(key: AttrKey, value: Value): (r: Result<Option<Command>, ScriptError>)
      requires Valid() && IsVisual(key) && ShapeFits(key, value)
      reads doc
      ensures r.Failure? <==> Rejects(key, value)
      ensures r.Failure? ==> r.error == (if key == ImageKey then NotFound else InvalidArgument)
      ensures r.Success? && r.value.Some? ==> r.value.value.node == node && Writes(key, r.value.value)
    {
      match key
      case BoundsKey =>
        Success(Some(Commands.SetBounds(node, ResolveBounds(Attributes().bounds, value.entries, doc.defaultWidth, doc.defaultHeight))))
      case FillColorKey =>
        if value.Str? && !doc.validColor(value.s) then Failure(InvalidArgument)
        else Success(Some(Commands.SetFillColor(node, AsText(value))))
      case ImageKey =>
        if !ImageExposed() then Success(None)
        else
          var path := ImagePathOf(Some(value.entries));
          if path.Some? && path.value !in ModelImages() then Failure(NotFound)
          else Success(Some(SetImagePath(node, path)))
      case TextAlignmentKey =>
        if ValidTextAlignment(value.i) then Success(Some(Commands.SetTextAlignment(node, value.i)))
        else Failure(InvalidArgument)
      case OpacityKey | OutlineOpacityKey | GradientKey | FigureTypeKey | TextPositionKey | ShowIconKey | ImageSourceKey | ImagePositionKey => Success(IntPlan(key, value.i))
    }

    /** The write of a setter that takes an integer and never throws: the
        value clamped or coerced, behind the setter's gate. */
    function IntPlan(key: AttrKey, v: int): (r: Option<Command>)
      requires Valid() && IsVisual(key) && key !in {BoundsKey, FillColorKey, ImageKey, TextAlignmentKey}
      reads doc
      ensures r.Some? ==> r.value.node == node && Writes(key, r.value)
      ensures key in {OpacityKey, OutlineOpacityKey} ==> r.Some?
    {
      match key
      case OpacityKey => Some(SetAlpha(node, Clamp(v, 0, AlphaMax)))
      case OutlineOpacityKey => Some(SetLineAlpha(node, Clamp(v, 0, AlphaMax)))
      case GradientKey =>
        if GradientExposed() then Some(Commands.SetGradient(node, Coerce(v, GradientNone, GradientMax, GradientNone))) else None
      case FigureTypeKey =>
        if HasAlternateFigure() then Some(Commands.SetFigureType(node, Clamp(v, 0, 1))) else None
      case TextPositionKey =>
        if HasTextPosition() then Some(Commands.SetTextPosition(node, Coerce(v, TextPositionTop, TextPositionBottom, TextPositionTop))) else None
      case ShowIconKey =>
        if HasIcon() then Some(SetIconVisible(node, Coerce(v, IconVisibleIfNoImageDefined, IconVisibleNever, IconVisibleDefault))) else None
      case ImageSourceKey =>
        if ImageSourceExposed() then Some(Commands.SetImageSource(node, Coerce(v, ImageSourceProfile, ImageSourceCustom, ImageSourceDefault))) else None
      case ImagePositionKey =>
        if ImagePositionExposed() then Some(Commands.SetImagePosition(node, Coerce(v, IconPositionTopLeft, IconPositionFill, IconPositionTopLeft))) else None
    }

    /** Writing back the bounds `attr(BOUNDS)` reads writes the same bounds,
        except that a size of -1 becomes the default size. */
    lemma AttrBoundsRoundTrip()
      requires Valid()
      ensures var b := Attributes().bounds;
              AttrPlan(BoundsKey, Attr(BoundsKey)) ==
                Success(Some(Commands.SetBounds(node, b.(width := if b.width == -1 then doc.defaultWidth else b.width,
                                                         height := if b.height == -1 then doc.defaultHeight else b.height))))
    {
      var b := Attributes().bounds;
      BoundsRoundTrip(b, b, doc.defaultWidth, doc.defaultHeight);
    }

    /** `attr(key, value)`: the setter of a visual key when the value has the
        shape it takes, otherwise the base proxy; this proxy is returned. */
    method SetAttr(key: AttrKey, value: Value) returns (r: Result<DiagramModelObjectProxy, ScriptError>)
      requires Valid() && ((key == NameKey || key == DocumentationKey) ==> IsText(value))
      modifies doc
      ensures Valid() && doc.rank == old(doc.rank)
      ensures PlanDone(old(AttrPlan(key, value)), r, old(doc.nodes), old(doc.log))
    {
      ghost var plan := AttrPlan(key, value);
      if IsVisual(key) && ShapeFits(key, value) {
        assert plan == VisualPlan(key, value);
        r := SetVisual(key, value);
      } else {
        ghost var c := base.AttrCommand(key, value);
        assert plan == Success(c);
        var self := base.SetAttr(key, value);
        r := Success(this);
      }
    }

    /** `doc` and `r` are what carrying out `plan` on `nodes0` and `log0` leaves. */
    ghost predicate PlanDone(plan: Result<Option<Command>, ScriptError>, r: Result<DiagramModelObjectProxy, ScriptError>,
                             nodes0: Nodes, log0: seq<Command>)
      reads doc
    {
      && (r.Failure? <==> plan.Failure?)
      && (r.Failure? ==> r.error == plan.error)
      && (r.Success? ==> r.value == this)
      && (plan.Failure? || plan.value.None? ==> doc.nodes == nodes0 && doc.log == log0)
      && (plan.Success? && plan.value.Some? ==> doc.nodes == Apply(nodes0, plan.value.value) && doc.log == log0 + [plan.value.value])
    }

    /** The visual half of the dispatch: the setter of `key`. */
    method SetVisual(key: AttrKey, value: Value) returns (r: Result<DiagramModelObjectProxy, ScriptError>)
      requires Valid() && IsVisual(key) && ShapeFits(key, value)
      modifies doc
      ensures Valid() && doc.rank == old(doc.rank)
      ensures PlanDone(old(VisualPlan(key, value)), r, old(doc.nodes), old(doc.log))
    {
      match key {
        case BoundsKey =>
          var p := SetBounds(value.entries);
          r := Success(p);
        case FillColorKey =>
          r := SetFillColor(AsText(value));
        case TextAlignmentKey =>
          r := SetTextAlignment(value.i);
        case ImageKey =>
          r := SetImage(Some(value.entries));
        case OpacityKey | OutlineOpacityKey | GradientKey | FigureTypeKey | TextPositionKey | ShowIconKey | ImageSourceKey | ImagePositionKey =>
          var p := SetInt(key, value.i);
          r := Success(p);
      }
    }

    /** The setters that take an integer and never throw. */
    method SetInt(key: AttrKey, v: int) returns (self: DiagramModelObjectProxy)
      requires Valid() && IsVisual(key) && key !in {BoundsKey, FillColorKey, ImageKey, TextAlignmentKey}
      modifies doc
      ensures self == this && Valid() && doc.rank == old(doc.rank)
      ensures PlanDone(Success(old(IntPlan(key, v))), Success(self), old(doc.nodes), old(doc.log))
    {
      match key {
        case OpacityKey => self := SetOpacity(v);
        case OutlineOpacityKey => self := SetOutlineOpacity(v);
        case GradientKey => self := SetGradient(v);
        case FigureTypeKey => self := SetFigureType(v);
        case TextPositionKey => self := SetTextPosition(v);
        case ShowIconKey => self := SetShowIcon(v);
        case ImageSourceKey => self := SetImageSource(v);
        case ImagePositionKey => self := SetImagePosition(v);
      }
    }

    // -------------------------------------------------------------------------
    // Children, find and delete

    /** `children()`: a proxy for each diagram child of a container, none
        for any other object. */
    method Children() returns (kids: seq<DiagramModelObjectProxy>)
      requires Valid()
      ensures NodesOf(kids) == DiagramChildren(doc.nodes, node)
      ensures forall i :: 0 <= i < |kids| ==> fresh(kids[i]) && Hosted(kids[i], doc)
    {
      kids := [];
      if DiagramModelContainer in Data().ifaces {
        var children := DiagramObjectsIn(doc.nodes, Data().links.contents);
        var i := 0;
        while i < |children|
          invariant 0 <= i <= |children|
          invariant NodesOf(kids) == children[..i]
          invariant forall j :: 0 <= j < |kids| ==> fresh(kids[j]) && Hosted(kids[j], doc)
        {
          var k := children[i];
          assert k in children;
          DiagramObjectKindFor(doc.nodes, doc.rank, k);
          var p := Get(doc, Some(k));
          var kid := new DiagramModelObjectProxy(p, k);
          NodesOfSnoc(kids, kid);
          assert children[..i + 1] == children[..i] + [k];
          kids := kids + [kid];
          i := i + 1;
        }
        assert children[..i] == children;
      }
    }

    /** `find()`: the descendants `find()` of the base proxy yields, kept
        when `isElement` holds (the `filter(ELEMENT)` of the collection). */
    method Find(isElement: NodeId -> bool) returns (r: seq<EObjectProxy>)
      requires Valid()
      ensures |r| == |KeepWhere(base.FoundNodes(), isElement)|
      ensures forall i :: 0 <= i < |r| ==> ProxyOf(r[i], doc, KeepWhere(base.FoundNodes(), isElement)[i])
    {
      var all := base.Find();
      ghost var found := base.FoundNodes();
      r := [];
      var i := 0;
      while i < |all|
        invariant 0 <= i <= |all|
        invariant |r| == |KeepWhere(found[..i], isElement)|
        invariant forall j :: 0 <= j < |r| ==> ProxyOf(r[j], doc, KeepWhere(found[..i], isElement)[j])
      {
        KeepWherePrefix(found, i, isElement);
        var x := all[i].node.value;
        if isElement(x) {
          r := r + [all[i]];
        }
        i := i + 1;
      }
      assert found[..i] == found;
    }

    /** The guard of `add`, `createObject` and `createViewReference`: only a
        container may receive new children. */
    method CheckContainer() returns (r: Outcome<ScriptError>)
      requires Valid()
      ensures r.Pass? <==> DiagramModelContainer in Data().ifaces
      ensures r.Fail? ==> r.error == InvalidArgument
    {
      if DiagramModelContainer in Data().ifaces {
        return Pass;
      }
      r := Fail(InvalidArgument);
    }

    /** `delete()`: the incoming connections, then the outgoing ones, then
        each child with its own cascade, then the object itself when it
        still has a container. */
    method Delete()
      requires Valid()
      modifies doc
      ensures Valid() && doc.rank == old(doc.rank)
      ensures doc.nodes == ApplyAll(old(doc.nodes), Cascade(old(doc.nodes), old(doc.rank), node))
      ensures doc.log == old(doc.log) + Cascade(old(doc.nodes), old(doc.rank), node)
      decreases |doc.rank| - doc.rank[node], 3
    {
      ghost var n0 := doc.nodes;
      ghost var log0 := doc.log;
      ghost var rank := doc.rank;
      DeleteOwnConnections();
      ghost var cs := ConnectionsPart(n0, node);
      ChildrenRun(n0, rank, node);
      DeleteAllChildren();
      ghost var c3 := ChildrenPart(n0, rank, node);
      Concat3(log0, cs, c3);
      ApplyAllSameKinds(n0, cs + c3);
      KeepsValid(this, n0);
      SelfRun(n0, rank, node);
      ghost var s3 := doc.nodes;
      if Data().links.container.Some? {
        doc.Execute(DeleteObject(node));
        ApplyAllOne(s3, DeleteObject(node));
      }
      Concat3(log0, cs + c3, SelfPart(n0, rank, node));
      KeepsValid(this, n0);
    }

    /** The two connection loops of `delete()`: the incoming connections,
        then the outgoing ones still there. */
    method DeleteOwnConnections()
      requires Valid()
      modifies doc
      ensures Valid() && doc.rank == old(doc.rank)
      ensures doc.nodes == ApplyAll(old(doc.nodes), ConnectionsPart(old(doc.nodes), node))
      ensures doc.log == old(doc.log) + ConnectionsPart(old(doc.nodes), node)
    {
      ghost var n0 := doc.nodes;
      ghost var log0 := doc.log;
      ConnectionsRun(n0, node);
      DeleteConnections(doc, Data().links.inRels);
      KeepsValid(this, n0);
      ghost var c1 := ConnectionDeletes(n0[node].links.inRels);
      ghost var c2 := ConnectionDeletes(doc.nodes[node].links.outRels);
      DeleteConnections(doc, Data().links.outRels);
      Concat3(log0, c1, c2);
      ApplyAllSameKinds(n0, ConnectionsPart(n0, node));
      KeepsValid(this, n0);
    }

    /** The children part of `delete()`: the children as `children()`
        lists them, each deleted in turn. */
    method DeleteAllChildren()
      requires Valid()
      requires forall k :: k in DiagramChildren(doc.nodes, node) ==>
                 k in doc.nodes && k in doc.rank && doc.rank[node] < doc.rank[k] && DiagramModelObject in doc.nodes[k].ifaces
      modifies doc
      ensures Valid() && doc.rank == old(doc.rank)
      ensures doc.nodes == ApplyAll(old(doc.nodes), CascadeChildren(old(doc.nodes), old(doc.rank), node, DiagramChildren(old(doc.nodes), node)))
      ensures doc.log == old(doc.log) + CascadeChildren(old(doc.nodes), old(doc.rank), node, DiagramChildren(old(doc.nodes), node))
      decreases |doc.rank| - doc.rank[node], 2
    {
      var kids := Children();
      assert forall i :: 0 <= i < |kids| ==> kids[i].node == NodesOf(kids)[i];
      DeleteChildren(kids, DiagramChildren(doc.nodes, node));
    }

    /** The loop of `delete()` over the children: each child's own delete,
        in order. */
    method DeleteChildren(kids: seq<DiagramModelObjectProxy>, ghost ks: seq<NodeId>)
      requires Valid()
      requires |ks| == |kids| && forall i :: 0 <= i < |kids| ==> kids[i].node == ks[i] && Hosted(kids[i], doc)
      requires forall k :: k in ks ==>
                 k in doc.nodes && k in doc.rank && doc.rank[node] < doc.rank[k] && DiagramModelObject in doc.nodes[k].ifaces
      modifies doc
      ensures Valid() && doc.rank == old(doc.rank)
      ensures doc.nodes == ApplyAll(old(doc.nodes), CascadeChildren(old(doc.nodes), old(doc.rank), node, ks))
      ensures doc.log == old(doc.log) + CascadeChildren(old(doc.nodes), old(doc.rank), node, ks)
      decreases |doc.rank| - doc.rank[node], 1
    {
      ghost var n0 := doc.nodes;
      ghost var log0 := doc.log;
      ghost var rank := doc.rank;
      ChildrenUpToEnds(n0, rank, node, ks);
      var i := 0;
      while i < |kids|
        invariant 0 <= i <= |kids|
        invariant Valid() && doc.rank == rank
        invariant doc.nodes == ApplyAll(n0, ChildrenUpTo(n0, rank, node, ks, i))
        invariant doc.log == log0 + ChildrenUpTo(n0, rank, node, ks, i)
      {
        DeleteChild(kids[i], n0, log0, ks, i);
        i := i + 1;
      }
    }

    /** One turn of the children loop: the delete of child `ks[i]`. */
    method DeleteChild(kid: DiagramModelObjectProxy, ghost n0: Nodes, ghost log0: seq<Command>, ghost ks: seq<NodeId>, ghost i: nat)
      requires Valid() && WellFormed(n0, doc.rank) && node in n0
      requires forall k :: k in ks ==> k in n0 && k in doc.rank && doc.rank[node] < doc.rank[k] && DiagramModelObject in n0[k].ifaces
      requires i < |ks| && ks[i] == kid.node && Hosted(kid, doc)
      requires doc.nodes == ApplyAll(n0, ChildrenUpTo(n0, doc.rank, node, ks, i))
      requires doc.log == log0 + ChildrenUpTo(n0, doc.rank, node, ks, i)
      modifies doc
      ensures Valid() && doc.rank == old(doc.rank)
      ensures doc.nodes == ApplyAll(n0, ChildrenUpTo(n0, doc.rank, node, ks, i + 1))
      ensures doc.log == log0 + ChildrenUpTo(n0, doc.rank, node, ks, i + 1)
      decreases |doc.rank| - doc.rank[node], 0
    {
      ghost var rank := doc.rank;
      ghost var pre := ChildrenUpTo(n0, rank, node, ks, i);
      ghost var m := doc.nodes;
      assert kid.node in ks;
      ChildRun(n0, rank, node, ks, i);
      ApplyAllSameKinds(n0, pre);
      DiagramObjectKindFor(n0, rank, kid.node);
      KeepsValid(kid, n0);
      kid.Delete();
      assert doc.nodes == ApplyAll(m, Cascade(m, rank, kid.node));
      Concat3(log0, pre, Cascade(m, rank, kid.node));
      ApplyAllSameKinds(n0, ChildrenUpTo(n0, rank, node, ks, i + 1));
      KeepsValid(this, n0);
    }
  }

  /** The keys `DiagramModelObjectProxy` reads and writes itself. */
  predicate IsVisual(key: AttrKey) {
    key in {BoundsKey, FillColorKey, OpacityKey, OutlineOpacityKey, GradientKey, FigureTypeKey,
            TextAlignmentKey, TextPositionKey, ShowIconKey, ImageSourceKey, ImagePositionKey, ImageKey}
  }

  /** The value has the shape the setter of `key` takes: a map for the
      bounds and the image, a string or null for the fill colour, an
      integer for the rest. */
  predicate ShapeFits(key: AttrKey, value: Value)
    requires IsVisual(key)
  {
    match key
    case BoundsKey => value.Dict?
    case ImageKey => value.Dict?
    case FillColorKey => IsText(value)
    case _ => value.Int?
  }

  /** `c` is the command of the setter of `key`. */
  predicate Writes(key: AttrKey, c: Command) {
    match key
    case BoundsKey => c.SetBounds?
    case FillColorKey => c.SetFillColor?
    case OpacityKey => c.SetAlpha?
    case OutlineOpacityKey => c.SetLineAlpha?
    case GradientKey => c.SetGradient?
    case FigureTypeKey => c.SetFigureType?
    case TextAlignmentKey => c.SetTextAlignment?
    case TextPositionKey => c.SetTextPosition?
    case ShowIconKey => c.SetIconVisible?
    case ImageSourceKey => c.SetImageSource?
    case ImagePositionKey => c.SetImagePosition?
    case ImageKey => c.SetImagePath?
    case _ => false
  }

  /** The objects the proxies `kids` wrap. */
  function NodesOf(kids: seq<DiagramModelObjectProxy>): seq<NodeId> {
    seq(|kids|, i requires 0 <= i < |kids| => kids[i].node)
  }

  lemma NodesOfSnoc(kids: seq<DiagramModelObjectProxy>, kid: DiagramModelObjectProxy)
    ensures NodesOf(kids + [kid]) == NodesOf(kids) + [kid.node]
  {
  }

  /** `kid` is a diagram object proxy on `doc`: what `Valid` asks of it
      besides the state of the document. */
  predicate Hosted(kid: DiagramModelObjectProxy, doc: Document) {
    kid.doc == doc && kid.base.doc == doc && kid.base.node == Some(kid.node) && kid.base.kind == DiagramObjectKind
  }

  /** The nodes of `s` for which `keep` holds, order kept. */
  function KeepWhere(s: seq<NodeId>, keep: NodeId -> bool): (r: seq<NodeId>)
    ensures |r| <= |s|
  {
    if s == [] then []
    else KeepWhere(s[..|s| - 1], keep) + (if keep(s[|s| - 1]) then [s[|s| - 1]] else [])
  }

  lemma KeepWherePrefix(s: seq<NodeId>, i: nat, keep: NodeId -> bool)
    requires i < |s|
    ensures KeepWhere(s[..i + 1], keep) == KeepWhere(s[..i], keep) + (if keep(s[i]) then [s[i]] else [])
  {
    assert s[..i + 1][..i] == s[..i];
  }

  /** The loop of `delete()` over a list of connections: one delete each,
      in order. */
  method DeleteConnections(doc: Document, rs: seq<NodeId>)
    requires doc.Valid()
    modifies doc
    ensures doc.Valid() && doc.rank == old(doc.rank) && SameKinds(old(doc.nodes), doc.nodes)
    ensures doc.nodes == ApplyAll(old(doc.nodes), ConnectionDeletes(rs))
    ensures doc.log == old(doc.log) + ConnectionDeletes(rs)
  {
    ghost var n0 := doc.nodes;
    ghost var log0 := doc.log;
    var i := 0;
    while i < |rs|
      invariant 0 <= i <= |rs|
      invariant doc.Valid() && doc.rank == old(doc.rank) && SameKinds(n0, doc.nodes)
      invariant doc.nodes == ApplyAll(n0, ConnectionDeletes(rs[..i]))
      invariant doc.log == log0 + ConnectionDeletes(rs[..i])
    {
      ConnectionDeletesSnoc(rs, i);
      ghost var mid := doc.nodes;
      doc.Execute(DeleteConnection(rs[i]));
      ApplyAllOne(mid, DeleteConnection(rs[i]));
      ApplyAllAppend(n0, ConnectionDeletes(rs[..i]), [DeleteConnection(rs[i])]);
      i := i + 1;
    }
    assert rs[..i] == rs;
  }

  /** Re-association of a log extended by two runs of commands. */
  lemma Concat3(l: seq<Command>, x: seq<Command>, y: seq<Command>)
    ensures l + x + y == l + (x + y)
  {
  }

  /** A proxy stays valid while its node keeps its kind. */
  lemma KeepsValid(p: DiagramModelObjectProxy, n0: Nodes)
    requires Hosted(p, p.doc) && p.doc.Valid()
    requires p.node in n0 && KindFor(n0[p.node].ifaces) == Some(DiagramObjectKind)
    requires SameKinds(n0, p.doc.nodes)
    ensures p.Valid()
  {
  }
}
