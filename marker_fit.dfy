/**
 * The child-to-parent map `SPMarker::update` computes from the marker's viewport
 * (`markerWidth` x `markerHeight`), its `viewBox`, `preserveAspectRatio` and its reference point.
 * As in the source, the alignment offsets of section 7.8 of SVG 1.1 are not applied: only the scale
 * depends on the alignment and clip mode.
 */
module MarkerFit {
  import opened Wrappers
  import opened Geometry
  import opened MarkerAttributes

  /** The viewport: the rectangle at the origin with the marker's width and height (`Rect::from_xywh`). */
  function Viewport(markerWidth: real, markerHeight: real): Rect {
    FromXYWH(0.0, 0.0, markerWidth, markerHeight)
  }

  /** The box that is fitted: the viewBox when there is one, else the viewport itself. */
  function FittedBox(markerWidth: real, markerHeight: real, viewBox: Option<Rect>): Rect {
    viewBox.GetOr(Viewport(markerWidth, markerHeight))
  }

  /** The scale factor on each axis for a viewport of size vw x vh and a box of size bw x bh; IEEE division by zero is `None`. */
  function FitScale(vw: real, vh: real, bw: real, bh: real, align: Align, clip: Clip): Option<(real, real)> {
    if bw == 0.0 || bh == 0.0 then None
    else if align == AlignNone then
      Some((vw / bw, vh / bh))
    else
      var scalex := vw / bw;
      var scaley := vh / bh;
      var scale := if clip == Meet then Min(scalex, scaley) else Max(scalex, scaley);
      var width := bw * scale;
      var height := bh * scale;
      Some((width / bw, height / bh))
  }

  /**
   * The child-to-parent transform: a translation by minus the reference point, followed by the
   * scale that takes the fitted box's width and height to the scaled ones.
   */
  function ChildToParent(markerWidth: real, markerHeight: real, viewBox: Option<Rect>,
                         aspect: AspectRatio, refX: real, refY: real): (r: Transform)
    ensures r.Matrix? || r.NotANumber?
    ensures r.Matrix? <==> FittedBox(markerWidth, markerHeight, viewBox).Width() != 0.0 &&
                           FittedBox(markerWidth, markerHeight, viewBox).Height() != 0.0
    ensures r.Matrix? ==> r.m.b == 0.0 && r.m.c == 0.0 && r.m.e == -refX * r.m.a && r.m.f == -refY * r.m.d
  {
    var vp := Viewport(markerWidth, markerHeight);
    var vb := FittedBox(markerWidth, markerHeight, viewBox);
    match FitScale(vp.Width(), vp.Height(), vb.Width(), vb.Height(), aspect.align, aspect.clip)
    case None => NotANumber
    case Some((sx, sy)) => Matrix(Then(Translate(-refX, -refY), Scale(sx, sy)))
  }

  /** A box of a parsed `viewBox` is never degenerate, a box taken from the viewport may be. */
  lemma FittedBoxPositive(markerWidth: real, markerHeight: real, viewBox: Option<Rect>)
    requires viewBox.Some? ==> viewBox.value.Width() > 0.0 && viewBox.value.Height() > 0.0
    ensures FittedBox(markerWidth, markerHeight, viewBox).Width() >= 0.0
    ensures FittedBox(markerWidth, markerHeight, viewBox).Height() >= 0.0
    ensures viewBox.Some? ==> FittedBox(markerWidth, markerHeight, viewBox).Width() > 0.0
  {
  }

  lemma DivMul(x: real, w: real)
    requires w != 0.0
    ensures (x / w) * w == x
  {
  }

  lemma MulDiv(x: real, w: real)
    requires w != 0.0
    ensures (w * x) / w == x
  {
  }

  lemma MulBelow(s: real, t: real, w: real)
    requires s <= t && w > 0.0
    ensures s * w <= t * w
  {
  }

  /** With `none`, each axis is scaled on its own so that the box's image has exactly the viewport's size. */
  lemma StretchScale(vw: real, vh: real, bw: real, bh: real, clip: Clip)
    requires bw != 0.0 && bh != 0.0
    ensures var sc := FitScale(vw, vh, bw, bh, AlignNone, clip);
            sc.Some? && sc.value.0 * bw == vw && sc.value.1 * bh == vh
  {
    DivMul(vw, bw);
    DivMul(vh, bh);
  }

  /** The uniform scale of an aligned fit: the smaller ratio for meet, the larger for slice. */
  function Chosen(sx: real, sy: real, clip: Clip): real {
    if clip == Meet then Min(sx, sy) else Max(sx, sy)
  }

  lemma FitScaleUniform(vw: real, vh: real, bw: real, bh: real, align: Align, clip: Clip)
    requires bw > 0.0 && bh > 0.0 && align != AlignNone
    ensures var s := Chosen(vw / bw, vh / bh, clip);
            FitScale(vw, vh, bw, bh, align, clip) == Some((s, s))
  {
    var s := Chosen(vw / bw, vh / bh, clip);
    MulDiv(s, bw);
    MulDiv(s, bh);
    assert FitScale(vw, vh, bw, bh, align, clip).value.0 == (bw * s) / bw;
    assert FitScale(vw, vh, bw, bh, align, clip).value.1 == (bh * s) / bh;
  }

  lemma ChosenBounds(vw: real, vh: real, bw: real, bh: real, clip: Clip)
    requires bw > 0.0 && bh > 0.0
    ensures var s := Chosen(vw / bw, vh / bh, clip);
            (clip == Meet ==> s * bw <= vw && s * bh <= vh) &&
            (clip == Slice ==> s * bw >= vw && s * bh >= vh) &&
            (s * bw == vw || s * bh == vh)
  {
    var sx, sy := vw / bw, vh / bh;
    DivMul(vw, bw);
    DivMul(vh, bh);
    if clip == Meet {
      MulBelow(Min(sx, sy), sx, bw);
      MulBelow(Min(sx, sy), sy, bh);
    } else {
      MulBelow(sx, Max(sx, sy), bw);
      MulBelow(sy, Max(sx, sy), bh);
    }
  }

  /** Otherwise one uniform scale: with meet the box fits inside, with slice it covers; it touches on one axis. */
  lemma UniformScale(vw: real, vh: real, bw: real, bh: real, align: Align, clip: Clip)
    requires bw > 0.0 && bh > 0.0 && align != AlignNone
    ensures var sc := FitScale(vw, vh, bw, bh, align, clip);
            sc.Some? && sc.value.0 == sc.value.1 &&
            (clip == Meet ==> sc.value.0 * bw <= vw && sc.value.0 * bh <= vh) &&
            (clip == Slice ==> sc.value.0 * bw >= vw && sc.value.0 * bh >= vh) &&
            (sc.value.0 * bw == vw || sc.value.0 * bh == vh)
  {
    FitScaleUniform(vw, vh, bw, bh, align, clip);
    ChosenBounds(vw, vh, bw, bh, clip);
  }

  /** With `none`, the box's image has exactly the viewport's size on each axis. */
  lemma StretchFillsViewport(markerWidth: real, markerHeight: real, vb: Rect, aspect: AspectRatio, refX: real, refY: real)
    requires aspect.align == AlignNone && vb.Width() > 0.0 && vb.Height() > 0.0
    ensures var r := ChildToParent(markerWidth, markerHeight, Some(vb), aspect, refX, refY);
            r.Matrix? && r.m.a * vb.Width() == Abs(markerWidth) && r.m.d * vb.Height() == Abs(markerHeight)
  {
    var vp := Viewport(markerWidth, markerHeight);
    StretchScale(vp.Width(), vp.Height(), vb.Width(), vb.Height(), aspect.clip);
  }

  /** With meet, one uniform scale makes the box fit inside the viewport and touch it on one axis. */
  lemma MeetFitsInside(markerWidth: real, markerHeight: real, viewBox: Option<Rect>, aspect: AspectRatio, refX: real, refY: real)
    requires aspect.align != AlignNone && aspect.clip == Meet
    requires var vb := FittedBox(markerWidth, markerHeight, viewBox); vb.Width() > 0.0 && vb.Height() > 0.0
    ensures var vb := FittedBox(markerWidth, markerHeight, viewBox);
            var vp := Viewport(markerWidth, markerHeight);
            var r := ChildToParent(markerWidth, markerHeight, viewBox, aspect, refX, refY);
            r.Matrix? && r.m.a == r.m.d &&
            r.m.a * vb.Width() <= vp.Width() && r.m.a * vb.Height() <= vp.Height() &&
            (r.m.a * vb.Width() == vp.Width() || r.m.a * vb.Height() == vp.Height())
  {
    var vb := FittedBox(markerWidth, markerHeight, viewBox);
    var vp := Viewport(markerWidth, markerHeight);
    UniformScale(vp.Width(), vp.Height(), vb.Width(), vb.Height(), aspect.align, aspect.clip);
  }

  /** With slice, one uniform scale makes the box cover the viewport and touch it on one axis. */
  lemma SliceCovers(markerWidth: real, markerHeight: real, viewBox: Option<Rect>, aspect: AspectRatio, refX: real, refY: real)
    requires aspect.align != AlignNone && aspect.clip == Slice
    requires var vb := FittedBox(markerWidth, markerHeight, viewBox); vb.Width() > 0.0 && vb.Height() > 0.0
    ensures var vb := FittedBox(markerWidth, markerHeight, viewBox);
            var vp := Viewport(markerWidth, markerHeight);
            var r := ChildToParent(markerWidth, markerHeight, viewBox, aspect, refX, refY);
            r.Matrix? && r.m.a == r.m.d &&
            r.m.a * vb.Width() >= vp.Width() && r.m.a * vb.Height() >= vp.Height() &&
            (r.m.a * vb.Width() == vp.Width() || r.m.a * vb.Height() == vp.Height())
  {
    var vb := FittedBox(markerWidth, markerHeight, viewBox);
    var vp := Viewport(markerWidth, markerHeight);
    UniformScale(vp.Width(), vp.Height(), vb.Width(), vb.Height(), aspect.align, aspect.clip);
  }

  /** Without a viewBox (and with a non-zero size) the map is only the translation by (-refX, -refY). */
  lemma NoViewBoxIsTranslation(markerWidth: real, markerHeight: real, aspect: AspectRatio, refX: real, refY: real)
    requires markerWidth != 0.0 && markerHeight != 0.0
    ensures ChildToParent(markerWidth, markerHeight, None, aspect, refX, refY) == Matrix(Translate(-refX, -refY))
  {
    var vp := Viewport(markerWidth, markerHeight);
    var w, h := vp.Width(), vp.Height();
    assert w != 0.0 && h != 0.0;
    MulDiv(1.0, w);
    MulDiv(1.0, h);
    assert w / w == 1.0 && h / h == 1.0;
    assert FitScale(w, h, w, h, aspect.align, aspect.clip) == Some((1.0, 1.0));
  }

  /** Without a viewBox and with a zero width or height the source divides zero by zero. */
  lemma ZeroSizeIsNotANumber(markerWidth: real, markerHeight: real, aspect: AspectRatio, refX: real, refY: real)
    requires markerWidth == 0.0 || markerHeight == 0.0
    ensures ChildToParent(markerWidth, markerHeight, None, aspect, refX, refY) == NotANumber
  {
  }

  /** A 200 x 100 viewport and a 50 x 50 viewBox centred with meet: the scale is min(4, 2) = 2 on both axes. */
  lemma MeetExample()
    ensures FitScale(200.0, 100.0, 50.0, 50.0, XMidYMid, Meet) == Some((2.0, 2.0))
  {
    assert 200.0 / 50.0 == 4.0 && 100.0 / 50.0 == 2.0;
    assert 50.0 * 2.0 == 100.0 && 100.0 / 50.0 == 2.0;
  }

  /** A 200 x 50 viewport and a 50 x 50 viewBox with slice: the scale is max(4, 1) = 4. */
  lemma SliceExample()
    ensures FitScale(200.0, 50.0, 50.0, 50.0, XMidYMid, Slice) == Some((4.0, 4.0))
  {
    assert 200.0 / 50.0 == 4.0 && 50.0 / 50.0 == 1.0;
    assert 50.0 * 4.0 == 200.0 && 200.0 / 50.0 == 4.0;
  }
}
