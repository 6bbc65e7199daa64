/** useScrollProgress.js: the fraction of the page scrolled and the flag
    that turns on once the reader has scrolled past 100 pixels. The window's
    scroll offset and the document's heights are parameters of the handler. */
module ScrollProgress {

  /** How far the reader may scroll before the flag turns on. */
  const VisibleAfter: real := 100.0

  /** The handler's progress: the scrolled fraction of the scrollable height,
      capped at 1; 0 when the page does not scroll. */
  function Progress(scrollTop: real, scrollHeight: real, innerHeight: real): real {
    var docHeight := scrollHeight - innerHeight;
    if docHeight > 0.0 then (if scrollTop / docHeight <= 1.0 then scrollTop / docHeight else 1.0) else 0.0
  }

  lemma DivideMonotone(a: real, b: real, d: real)
    requires a <= b && d > 0.0
    ensures a / d <= b / d
  {
    assert b / d - a / d == (b - a) / d;
    assert (b - a) / d * d == b - a;
  }

  lemma DivideBounds(a: real, d: real)
    requires d > 0.0
    ensures a >= 0.0 ==> a / d >= 0.0
    ensures a < d ==> a / d < 1.0
    ensures a >= d ==> a / d >= 1.0
  {
    if a >= 0.0 { DivideMonotone(0.0, a, d); }
    if a < d {
      DivideMonotone(a, d, d);
      assert d / d == 1.0;
    }
    if a >= d { DivideMonotone(d, a, d); }
  }

  /** The progress never exceeds 1; it is never negative while the offset is
      not; it is the exact fraction while the offset lies within the
      scrollable height, and 1 from the bottom on. */
  lemma ProgressBounds(scrollTop: real, scrollHeight: real, innerHeight: real)
    ensures var p := Progress(scrollTop, scrollHeight, innerHeight);
            var docHeight := scrollHeight - innerHeight;
            && p <= 1.0
            && (scrollTop >= 0.0 ==> p >= 0.0)
            && (docHeight <= 0.0 ==> p == 0.0)
            && (docHeight > 0.0 && scrollTop < docHeight ==> p == scrollTop / docHeight && p < 1.0)
            && (docHeight > 0.0 && scrollTop >= docHeight ==> p == 1.0)
  {
    var docHeight := scrollHeight - innerHeight;
    if docHeight > 0.0 {
      DivideBounds(scrollTop, docHeight);
    }
  }

  /** Scrolling further down never lowers the progress. */
  lemma ProgressMonotone(top1: real, top2: real, scrollHeight: real, innerHeight: real)
    requires top1 <= top2
    ensures Progress(top1, scrollHeight, innerHeight) <= Progress(top2, scrollHeight, innerHeight)
  {
    var docHeight := scrollHeight - innerHeight;
    if docHeight > 0.0 {
      DivideMonotone(top1, top2, docHeight);
    }
  }

  /** The hook's two state values. */
  class ScrollState {
    var scrollProgress: real
    var isVisible: bool

    /** Mount: the flag is first set from the initial offset, then the
        handler runs once, so both values reflect the initial position. */
    constructor (scrollTop: real, scrollHeight: real, innerHeight: real)
      ensures scrollProgress == Progress(scrollTop, scrollHeight, innerHeight)
      ensures isVisible <==> scrollTop > VisibleAfter
    {
      scrollProgress := 0.0;
      isVisible := false;
      new;
      if scrollTop > VisibleAfter {
        isVisible := true;
      }
      HandleScroll(scrollTop, scrollHeight, innerHeight);
    }

    /** `handleScroll()`: recompute the progress; the flag is a latch that a
        scroll past 100 pixels sets and nothing clears. */
    method HandleScroll(scrollTop: real, scrollHeight: real, innerHeight: real)
      modifies this
      ensures scrollProgress == Progress(scrollTop, scrollHeight, innerHeight)
      ensures isVisible <==> old(isVisible) || scrollTop > VisibleAfter
    {
      scrollProgress := Progress(scrollTop, scrollHeight, innerHeight);
      if scrollTop > VisibleAfter {
        isVisible := true;
      }
    }
  }
}
