/**
 * The editor's mutable session: the current drawing surface (its size and
 * its object list, back to front) and the references the editor keeps to
 * the photo layer and to the signature layer.
 *
 * Decoding is outside the model: each load handler receives the decoded
 * picture as a `Raster`, and the image-load handler also receives the
 * viewport it would read from the host document.
 */
module Session {
  import opened Geometry
  import opened Layers

  /** The photo layer lies at the origin and covers the surface exactly. */
  ghost predicate Covers(b: Layer, width: real, height: real) {
    && b.sourceWidth > 0 && b.sourceHeight > 0
    && b.left == 0.0 && b.top == 0.0
    && b.sourceWidth as real * b.scale == width
    && b.sourceHeight as real * b.scale == height
  }

  /** The surface's layers as the photo (if any) followed by `front`. */
  function OnBase(base: Option<Layer>, front: seq<Layer>): seq<Layer> {
    match base
    case None => front
    case Some(b) => [b] + front
  }

  /**
   * Taking every signature off a stacked surface leaves just the photo
   * that `base` refers to, or nothing when there is none.
   */
  lemma BackdropOfStacked(s: seq<Layer>, base: Option<Layer>)
    requires Stacked(s)
    requires base.None? ==> forall i :: 0 <= i < |s| ==> s[i].kind != Base
    requires base.Some? ==> base.value.kind == Base && |s| > 0 && s[0] == base.value
    ensures WithoutKind(s, Signature) == OnBase(base, [])
  {
    StackedIsShort(s);
    if |s| == 2 {
      assert s[1..] == [s[1]] && s[1..][1..] == [];
    } else if |s| == 1 {
      assert s[1..] == [];
    }
  }

  /**
   * On a surface sized `w * r` by `h * r` for a `w` x `h` photo, the ratio
   * recomputed against the surface is `r` again, so the photo placed at the
   * origin with that ratio covers the surface exactly.
   */
  lemma FreshBaseCovers(b: Layer, r: real, width: real, height: real)
    requires b.sourceWidth > 0 && b.sourceHeight > 0 && b.left == 0.0 && b.top == 0.0
    requires width == b.sourceWidth as real * r && height == b.sourceHeight as real * r
    requires b.scale == CalculateRatio(b.sourceWidth as real, b.sourceHeight as real, width, height)
    ensures b.scale == r && Covers(b, width, height)
  {
    RatioOfScaledBox(b.sourceWidth as real, b.sourceHeight as real, r);
  }

  /**
   * The session invariant, over the session's fields: a photo only at the
   * back and a signature only at the front; the photo on the surface is the
   * one `base` refers to and covers the surface; a signature on the surface
   * is the one `signature` refers to; every layer is older than `nextId`.
   * After a new photo `signature` may refer to a layer of a surface that no
   * longer exists.
   */
  ghost predicate Consistent(width: real, height: real, layers: seq<Layer>,
                             base: Option<Layer>, signature: Option<Layer>, nextId: nat)
  {
    && width >= 0.0 && height >= 0.0
    && Stacked(layers)
    && (forall i :: 0 <= i < |layers| ==> layers[i].id < nextId)
    && (base.None? ==> forall i :: 0 <= i < |layers| ==> layers[i].kind != Base)
    && (base.Some? ==>
          && base.value.kind == Base
          && |layers| > 0 && layers[0] == base.value
          && Covers(base.value, width, height))
    && (signature.Some? ==> signature.value.kind == Signature)
    && (forall i :: 0 <= i < |layers| && layers[i].kind == Signature ==> signature == Some(layers[i]))
  }

  /** A fresh surface holding only a photo that covers it is consistent. */
  lemma PhotoAloneConsistent(width: real, height: real, b: Layer, signature: Option<Layer>, nextId: nat)
    requires width >= 0.0 && height >= 0.0
    requires b.kind == Base && b.id < nextId && Covers(b, width, height)
    requires signature.Some? ==> signature.value.kind == Signature
    ensures Consistent(width, height, [b], Some(b), signature, nextId)
  {
  }

  /**
   * On a consistent surface, removing the signature reference and putting
   * a new signature `s` in front leaves the photo (if any) behind `s`, and
   * the surface stays consistent.
   */
  lemma SignatureReplacedConsistent(width: real, height: real, layers: seq<Layer>,
                                    base: Option<Layer>, signature: Option<Layer>, nextId: nat, s: Layer)
    requires Consistent(width, height, layers, base, signature, nextId)
    requires s.kind == Signature && s.id == nextId
    ensures RemoveRef(layers, signature) == WithoutKind(layers, Signature) == OnBase(base, [])
    ensures BringToFront(Add(RemoveRef(layers, signature), s), s) == OnBase(base, [s])
    ensures Consistent(width, height, OnBase(base, [s]), base, Some(s), nextId + 1)
  {
    BackdropOfStacked(layers, base);
    if signature.Some? {
      RemoveOnlyOfKind(layers, signature.value);
    } else {
      RemoveOnlyOfKind(layers, s);
      assert s !in layers;
    }
    var kept := OnBase(base, []);
    assert s !in kept;
    RemoveJustAdded(kept, s);
  }

  class EditorSession {
    var width: real
    var height: real
    var layers: seq<Layer>
    var base: Option<Layer>
    var signature: Option<Layer>
    /** Identity of the next decoded picture. */
    var nextId: nat

    ghost predicate Valid()
      reads this
    {
      Consistent(width, height, layers, base, signature, nextId)
    }

    /** The surface the editor starts with, before any picture is loaded. */
    constructor (canvasWidth: real, canvasHeight: real)
      requires canvasWidth >= 0.0 && canvasHeight >= 0.0
      ensures Valid()
      ensures width == canvasWidth && height == canvasHeight
      ensures layers == [] && base == None && signature == None
    {
      width, height := canvasWidth, canvasHeight;
      layers := [];
      base, signature := None, None;
      nextId := 0;
    }

    /**
     * Disposes the surface and makes a fresh, empty one sized to fit a
     * `w` x `h` picture into 95% x 90% of the viewport, keeping the
     * picture's proportions.
     *
     * This is only the first step of `LoadImage`, its one caller: it leaves
     * `base` referring to a photo that is no longer on the surface, so it
     * does not keep `Valid()`; `LoadImage` restores it by placing the new
     * photo.
     */
    method ResizeCanvas(w: nat, h: nat, vp: Viewport)
      requires w > 0 && h > 0
      modifies this
      ensures var r := CalculateRatio(w as real, h as real, MaxWidth(vp), MaxHeight(vp));
        width == w as real * r && height == h as real * r
      ensures width >= 0.0 && height >= 0.0
      ensures layers == []
      ensures base == old(base) && signature == old(signature) && nextId == old(nextId)
    {
      var maxW := vp.clientWidth as real * WidthShare;
      var maxH := vp.clientHeight as real * HeightShare;
      var ratio := CalculateRatio(w as real, h as real, maxW, maxH);
      RatioNonNegative(w as real, h as real, maxW, maxH);
      layers := [];
      width := w as real * ratio;
      height := h as real * ratio;
    }

    /**
     * A photo has finished decoding. Unless one of the four dimensions is
     * zero, the surface is replaced by a fresh one fitted to the photo, and
     * the photo alone is placed on it, at the origin and at the back;
     * otherwise nothing changes.
     */
    method LoadImage(img: Raster, vp: Viewport)
      requires Valid()
      modifies this
      ensures Valid()
      ensures img.width == 0 || img.height == 0 || old(width) == 0.0 || old(height) == 0.0 ==> unchanged(this)
      ensures img.width != 0 && img.height != 0 && old(width) != 0.0 && old(height) != 0.0 ==>
          && base == Some(Layer(old(nextId), Base, 0.0, 0.0,
                                CalculateRatio(img.width as real, img.height as real, MaxWidth(vp), MaxHeight(vp)),
                                img.width, img.height))
          && Covers(base.value, width, height)
          && layers == [base.value]
          && signature == old(signature) && nextId == old(nextId) + 1
    {
      if img.width != 0 && img.height != 0 && width != 0.0 && height != 0.0 {
        ResizeCanvas(img.width, img.height, vp);
        ghost var r := CalculateRatio(img.width as real, img.height as real, MaxWidth(vp), MaxHeight(vp));
        var ratio := CalculateRatio(img.width as real, img.height as real, width, height);
        var b := Layer(nextId, Base, 0.0, 0.0, ratio, img.width, img.height);
        FreshBaseCovers(b, r, width, height);
        PhotoAloneConsistent(width, height, b, signature, nextId + 1);
        nextId := nextId + 1;
        layers := RemoveRef(layers, base);
        base := Some(b);
        assert Remove([b], b) == [];
        layers := SendToBack(Add(layers, b), b);
      }
    }

    /**
     * A signature has finished decoding. Unless one of the four dimensions
     * is zero, it is scaled to 0.6 of its fit ratio on the current surface,
     * anchored at the bottom centre, and replaces the previous signature at
     * the front; the photo and the surface stay as they are. Otherwise
     * nothing changes.
     */
    method LoadSignature(img: Raster)
      requires Valid()
      modifies this
      ensures Valid()
      ensures if img.width != 0 && img.height != 0 && old(width) != 0.0 && old(height) != 0.0 then
          && signature.Some?
          && var s := signature.value;
          && s.id == old(nextId) && s.kind == Signature
          && s.sourceWidth == img.width && s.sourceHeight == img.height
          && var p := SignaturePlacement(img.width as real, img.height as real, old(width), old(height));
          && s.left == p.left && s.top == p.top && s.scale == p.scale
          && layers == WithoutKind(old(layers), Signature) + [s]
          && layers == OnBase(old(base), [s])
          && base == old(base) && width == old(width) && height == old(height)
          && nextId == old(nextId) + 1
        else
          unchanged(this)
    {
      if img.width != 0 && img.height != 0 && width != 0.0 && height != 0.0 {
        var p := SignaturePlacement(img.width as real, img.height as real, width, height);
        var s := Layer(nextId, Signature, p.left, p.top, p.scale, img.width, img.height);
        SignatureReplacedConsistent(width, height, layers, base, signature, nextId, s);
        var kept := RemoveRef(layers, signature);
        var front := BringToFront(Add(kept, s), s);
        layers, signature, nextId := front, Some(s), nextId + 1;
      }
    }

    /**
     * The resolution multiplier of an export: the photo's own width over
     * the surface width, so that the exported picture has the photo's pixel
     * size in both directions. None when no photo was loaded or the surface
     * is degenerate.
     */
    function ExportMultiplier(): (m: Option<real>)
      reads this
      requires Valid()
      ensures m.Some? <==> base.Some? && width != 0.0
      ensures m.Some? ==> m.value * width == base.value.sourceWidth as real
      ensures m.Some? ==> m.value * height == base.value.sourceHeight as real
    {
      if base.Some? && width != 0.0 then Some(base.value.sourceWidth as real / width) else None
    }
  }

  /**
   * A client of the session: a signature picked before any photo, a photo,
   * two signatures in a row, then a second photo.
   */
  method EditingScenario() {
    var vp := Viewport(1000, 1000);
    var e := new EditorSession(300.0, 150.0);
    e.LoadSignature(Raster(100, 50));
    assert |e.layers| == 1 && e.layers[0].kind == Signature;

    e.LoadImage(Raster(1900, 900), vp);
    assert e.width == 950.0 && e.height == 450.0;
    assert |e.layers| == 1 && e.layers[0] == e.base.value && e.signature.Some?;
    assert e.ExportMultiplier() == Some(2.0);

    e.LoadSignature(Raster(400, 200));
    var first := e.signature.value;
    assert first.scale == 1.35 && first.left == 205.0 && first.top == 180.0;
    e.LoadSignature(Raster(40, 20));
    assert |e.layers| == 2 && e.layers[1] == e.signature.value && first !in e.layers;

    e.LoadSignature(Raster(0, 20));
    assert |e.layers| == 2 && e.layers[1] != first;

    e.LoadImage(Raster(4000, 3000), vp);
    assert |e.layers| == 1 && e.layers[0].kind == Base && e.width == 950.0 && e.height == 712.5;
  }
}
