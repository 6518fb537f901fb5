/**
 The document-to-screen transform of `action` (src/media.c:87-108).
 Document space has its origin at the bottom-left of the page with y
 growing upward; screen space has its origin at the top-left of the
 display with y growing downward. Doubles are idealised as `real`.
 */
module Geometry {

  /** A `PopplerRectangle`: corners (x1, y1) and (x2, y2). */
  datatype Rect = Rect(x1: real, y1: real, x2: real, y2: real)

  /** The per-invocation scale factors and centring offsets (`scx`, `scy`, `dx`, `dy`). */
  datatype Scaling = Scaling(scx: real, scy: real, dx: real, dy: real)

  predicate WellFormed(r: Rect) {
    r.x1 <= r.x2 && r.y1 <= r.y2
  }

  /** Strict containment, the test of the click hit test. */
  predicate Contains(r: Rect, x: real, y: real) {
    r.x1 < x < r.x2 && r.y1 < y < r.y2
  }

  function Min(a: real, b: real): (m: real)
    ensures m <= a && m <= b && (m == a || m == b)
  {
    if a <= b then a else b
  }

  /**
   Scale and offsets for a display of `w` x `h` showing a page of
   `pageW` x `pageH`. Without aspect lock the page is stretched onto the
   whole display. With it both axes take the smaller scale, the page fills
   the display along one axis and is centred along the other; on a tie the
   (zero) centring offset goes to the y axis.
   */
  function ComputeScaling(w: real, h: real, pageW: real, pageH: real, lockAspect: bool): (s: Scaling)
    requires 0.0 < pageW && 0.0 < pageH
    ensures !lockAspect ==> s.dx == 0.0 && s.dy == 0.0
    ensures !lockAspect ==> s.scx * pageW == w && s.scy * pageH == h
    ensures lockAspect ==> s.scx == s.scy == Min(w / pageW, h / pageH)
    ensures lockAspect ==> 2.0 * s.dx + pageW * s.scx == w && 2.0 * s.dy + pageH * s.scy == h
    ensures lockAspect && w / pageW > h / pageH ==> s.dy == 0.0
    ensures lockAspect && w / pageW <= h / pageH ==> s.dx == 0.0
  {
    var scx := w / pageW;
    var scy := h / pageH;
    if !lockAspect then Scaling(scx, scy, 0.0, 0.0)
    else if scx > scy then Scaling(scy, scy, (w - pageW * scy) / 2.0, 0.0)
    else Scaling(scx, scx, 0.0, (h - pageH * scx) / 2.0)
  }

  /** With aspect lock on a non-empty display, the centring offsets are never negative. */
  lemma LockedOffsetsNonNegative(w: real, h: real, pageW: real, pageH: real)
    requires 0.0 < pageW && 0.0 < pageH
    requires 0.0 <= w && 0.0 <= h
    ensures var s := ComputeScaling(w, h, pageW, pageH, true);
      0.0 <= s.dx && 0.0 <= s.dy && 0.0 <= s.scx
  {
    var s := ComputeScaling(w, h, pageW, pageH, true);
    assert s.scx <= w / pageW && s.scx <= h / pageH;
    assert pageW * s.scx <= pageW * (w / pageW);
    assert pageH * s.scy <= pageH * (h / pageH);
  }

  /** Vertical flip about the page height: the corners swap roles. */
  function Flip(pageH: real, r: Rect): (f: Rect)
    ensures f.y1 == pageH - r.y2 && f.y2 == pageH - r.y1
    ensures f.x1 == r.x1 && f.x2 == r.x2
    ensures f.y2 - f.y1 == r.y2 - r.y1
    ensures WellFormed(r) <==> WellFormed(f)
  {
    Rect(r.x1, pageH - r.y2, r.x2, pageH - r.y1)
  }

  /** Flipping twice about the same page height gives the rectangle back. */
  lemma FlipInvolution(pageH: real, r: Rect)
    ensures Flip(pageH, Flip(pageH, r)) == r
  {
    var f := Flip(pageH, r);
    var g := Flip(pageH, f);
    assert g.y1 == pageH - (pageH - r.y1) == r.y1;
    assert g.y2 == pageH - (pageH - r.y2) == r.y2;
  }

  /** Scale then offset each corner. */
  function Place(s: Scaling, r: Rect): Rect {
    Rect(s.scx * r.x1 + s.dx, s.scy * r.y1 + s.dy, s.scx * r.x2 + s.dx, s.scy * r.y2 + s.dy)
  }

  lemma MulStrict(k: real, a: real, b: real)
    ensures 0.0 < k ==> (a < b <==> k * a < k * b)
    ensures 0.0 < k ==> (a <= b <==> k * a <= k * b)
  {
  }

  lemma MulDiff(k: real, a: real, b: real)
    ensures k * b - k * a == k * (b - a)
  {
  }

  /** Screen rectangle of an annotation: flip, then scale, then offset. */
  function ToScreen(s: Scaling, pageH: real, r: Rect): Rect {
    Place(s, Flip(pageH, r))
  }

  /**
   The screen rectangle's width and height are the document ones times the
   scales, so with positive scales a well-formed rectangle stays well formed
   and an inverted one stays inverted.
   */
  lemma ToScreenSize(s: Scaling, pageH: real, r: Rect)
    ensures var q := ToScreen(s, pageH, r);
      q.x2 - q.x1 == s.scx * (r.x2 - r.x1) && q.y2 - q.y1 == s.scy * (r.y2 - r.y1)
    ensures 0.0 < s.scx && 0.0 < s.scy ==> (WellFormed(r) <==> WellFormed(ToScreen(s, pageH, r)))
  {
    var f := Flip(pageH, r);
    var q := ToScreen(s, pageH, r);
    assert q == Place(s, f);
    assert f.x2 - f.x1 == r.x2 - r.x1 && f.y2 - f.y1 == r.y2 - r.y1;
    MulDiff(s.scx, f.x1, f.x2);
    MulDiff(s.scy, f.y1, f.y2);
    assert q.x2 - q.x1 == s.scx * (f.x2 - f.x1);
    assert q.y2 - q.y1 == s.scy * (f.y2 - f.y1);
    MulStrict(s.scx, f.x1, f.x2);
    MulStrict(s.scy, f.y1, f.y2);
    if 0.0 < s.scx && 0.0 < s.scy {
      assert q.x1 <= q.x2 <==> f.x1 <= f.x2;
      assert q.y1 <= q.y2 <==> f.y1 <= f.y2;
      assert WellFormed(q) <==> WellFormed(f);
    }
  }

  /** Screen position of a document point. */
  function PointToScreen(s: Scaling, pageH: real, x: real, y: real): (real, real) {
    (s.scx * x + s.dx, s.scy * (pageH - y) + s.dy)
  }

  /** Document position of a screen point: the inverse of `PointToScreen`. */
  function PointToDocument(s: Scaling, pageH: real, x: real, y: real): (real, real)
    requires s.scx != 0.0 && s.scy != 0.0
  {
    ((x - s.dx) / s.scx, pageH - (y - s.dy) / s.scy)
  }

  lemma PointRoundTrip(s: Scaling, pageH: real, x: real, y: real)
    requires s.scx != 0.0 && s.scy != 0.0
    ensures var p := PointToScreen(s, pageH, x, y);
      PointToDocument(s, pageH, p.0, p.1) == (x, y)
    ensures var p := PointToDocument(s, pageH, x, y);
      PointToScreen(s, pageH, p.0, p.1) == (x, y)
  {
    var p := PointToScreen(s, pageH, x, y);
    assert (p.0 - s.dx) / s.scx == x;
    assert (p.1 - s.dy) / s.scy == pageH - y;
    var d := PointToDocument(s, pageH, x, y);
    assert s.scx * d.0 + s.dx == x;
    assert s.scy * (pageH - d.1) + s.dy == y;
    var t := PointToScreen(s, pageH, d.0, d.1);
    assert t.0 == x && t.1 == y;
  }

  /** Inverse of `ToScreen` for non-zero scales. */
  function FromScreen(s: Scaling, pageH: real, q: Rect): Rect
    requires s.scx != 0.0 && s.scy != 0.0
  {
    Rect((q.x1 - s.dx) / s.scx, pageH - (q.y2 - s.dy) / s.scy,
         (q.x2 - s.dx) / s.scx, pageH - (q.y1 - s.dy) / s.scy)
  }

  /** The transform loses nothing: the document rectangle is recovered from the screen one. */
  lemma ScreenRoundTrip(s: Scaling, pageH: real, r: Rect)
    requires s.scx != 0.0 && s.scy != 0.0
    ensures FromScreen(s, pageH, ToScreen(s, pageH, r)) == r
  {
    var q := ToScreen(s, pageH, r);
    assert (q.x1 - s.dx) / s.scx == r.x1;
    assert (q.x2 - s.dx) / s.scx == r.x2;
    assert (q.y2 - s.dy) / s.scy == pageH - r.y1;
    assert (q.y1 - s.dy) / s.scy == pageH - r.y2;
  }

  /**
   With positive scales, a document point lies strictly inside a document
   rectangle exactly when its screen image lies strictly inside the screen
   rectangle: the screen hit test is a hit test in document space.
   */
  lemma ContainsOnScreen(s: Scaling, pageH: real, r: Rect, x: real, y: real)
    requires 0.0 < s.scx && 0.0 < s.scy
    ensures var (sx, sy) := PointToScreen(s, pageH, x, y);
      Contains(r, x, y) <==> Contains(ToScreen(s, pageH, r), sx, sy)
  {
    var q := ToScreen(s, pageH, r);
    var pt := PointToScreen(s, pageH, x, y);
    assert q.x1 == s.scx * r.x1 + s.dx && q.x2 == s.scx * r.x2 + s.dx;
    assert q.y1 == s.scy * (pageH - r.y2) + s.dy && q.y2 == s.scy * (pageH - r.y1) + s.dy;
    assert pt.0 == s.scx * x + s.dx && pt.1 == s.scy * (pageH - y) + s.dy;
    MulStrict(s.scx, r.x1, x);
    MulStrict(s.scx, x, r.x2);
    MulStrict(s.scy, pageH - r.y2, pageH - y);
    MulStrict(s.scy, pageH - y, pageH - r.y1);
    assert r.x1 < x <==> q.x1 < pt.0;
    assert x < r.x2 <==> pt.0 < q.x2;
    assert r.y1 < y <==> pageH - y < pageH - r.y1;
    assert r.y1 < y <==> pt.1 < q.y2;
    assert y < r.y2 <==> pageH - r.y2 < pageH - y;
    assert y < r.y2 <==> q.y1 < pt.1;
  }

  /** The page's own rectangle on screen: from the offsets to the offsets plus the scaled page size. */
  lemma PageOnScreen(s: Scaling, pageW: real, pageH: real)
    ensures ToScreen(s, pageH, Rect(0.0, 0.0, pageW, pageH))
         == Rect(s.dx, s.dy, s.scx * pageW + s.dx, s.scy * pageH + s.dy)
  {
    var f := Flip(pageH, Rect(0.0, 0.0, pageW, pageH));
    assert f.y1 == pageH - pageH == 0.0 && f.y2 == pageH - 0.0 == pageH;
    assert f == Rect(0.0, 0.0, pageW, pageH);
    assert s.scx * 0.0 == 0.0 && s.scy * 0.0 == 0.0;
    var q := Place(s, f);
    assert q.x1 == s.dx && q.y1 == s.dy;
    assert q.x2 == s.scx * pageW + s.dx && q.y2 == s.scy * pageH + s.dy;
  }

  /** Without aspect lock the page is stretched exactly onto the display. */
  lemma PageImageStretched(w: real, h: real, pageW: real, pageH: real)
    requires 0.0 < pageW && 0.0 < pageH
    ensures ToScreen(ComputeScaling(w, h, pageW, pageH, false), pageH, Rect(0.0, 0.0, pageW, pageH))
         == Rect(0.0, 0.0, w, h)
  {
    var s := ComputeScaling(w, h, pageW, pageH, false);
    assert s.dx == 0.0 && s.dy == 0.0;
    assert s.scx * pageW == w && s.scy * pageH == h;
    PageOnScreen(s, pageW, pageH);
    var q := ToScreen(s, pageH, Rect(0.0, 0.0, pageW, pageH));
    assert q.x1 == 0.0 && q.y1 == 0.0 && q.x2 == w && q.y2 == h;
    assert q == Rect(0.0, 0.0, w, h);
  }

  /** With aspect lock the page image is centred on the display and lies inside it. */
  lemma PageImageCentred(w: real, h: real, pageW: real, pageH: real)
    requires 0.0 < pageW && 0.0 < pageH
    requires 0.0 <= w && 0.0 <= h
    ensures var q := ToScreen(ComputeScaling(w, h, pageW, pageH, true), pageH, Rect(0.0, 0.0, pageW, pageH));
      && q.x1 + q.x2 == w && q.y1 + q.y2 == h
      && 0.0 <= q.x1 <= q.x2 <= w && 0.0 <= q.y1 <= q.y2 <= h
  {
    var s := ComputeScaling(w, h, pageW, pageH, true);
    PageOnScreen(s, pageW, pageH);
    LockedOffsetsNonNegative(w, h, pageW, pageH);
  }

}
