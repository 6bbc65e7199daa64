/** HowItWorks.js: how far the reader has scrolled through the timeline
    section, and how strongly each of the five steps is lit for that progress.
    The progress formula divides by quantities that can be zero or negative, so
    its result is a JavaScript number that may be NaN or infinite. */
module HowItWorks {

  /** A JavaScript number: finite (as an exact real), infinite or NaN. */
  datatype JsNum = Num(v: real) | PosInf | NegInf | NaN

  /** `a / b` on finite operands. */
  function Div(a: real, b: real): (q: JsNum)
    ensures b != 0.0 ==> q == Num(a / b)
    ensures b == 0.0 && a > 0.0 ==> q == PosInf
    ensures b == 0.0 && a < 0.0 ==> q == NegInf
    ensures b == 0.0 && a == 0.0 ==> q == NaN
  {
    if b != 0.0 then Num(a / b)
    else if a > 0.0 then PosInf
    else if a < 0.0 then NegInf
    else NaN
  }

  /** `Math.min(m, x)` for a finite `m`: NaN stays NaN. */
  function JsMin(m: real, x: JsNum): (r: JsNum)
    ensures x.NaN? <==> r.NaN?
    ensures r.Num? ==> r.v <= m
  {
    match x
    case Num(v) => Num(if v <= m then v else m)
    case PosInf => Num(m)
    case NegInf => NegInf
    case NaN => NaN
  }

  /** `Math.max(m, x)` for a finite `m`: NaN stays NaN. */
  function JsMax(m: real, x: JsNum): (r: JsNum)
    ensures x.NaN? <==> r.NaN?
    ensures r.Num? ==> r.v >= m
  {
    match x
    case Num(v) => Num(if v >= m then v else m)
    case PosInf => PosInf
    case NegInf => Num(m)
    case NaN => NaN
  }

  /** `x >= r` for a finite `r`: false for NaN. */
  predicate AtLeast(x: JsNum, r: real) {
    match x
    case Num(v) => v >= r
    case PosInf => true
    case NegInf => false
    case NaN => false
  }

  function RealAbs(r: real): real {
    if r < 0.0 then -r else r
  }

  lemma FactorPositive(x: real, b: real)
    requires b > 0.0 && x * b > 0.0
    ensures x > 0.0
  {
  }

  lemma FactorNonNegative(x: real, b: real)
    requires b > 0.0 && x * b >= 0.0
    ensures x >= 0.0
  {
  }

  /** Where a quotient of a non-negative numerator by a positive divisor lies. */
  lemma QuotientBounds(a: real, b: real)
    requires 0.0 <= a && b > 0.0
    ensures a / b >= 0.0
    ensures a < b ==> a / b < 1.0
    ensures a > 0.0 ==> a / b > 0.0
    ensures a >= b ==> a / b >= 1.0
  {
    var q := a / b;
    assert q * b == a;
    assert (1.0 - q) * b == b - a;
    assert (q - 1.0) * b == a - b;
    FactorNonNegative(q, b);
    if a < b { FactorPositive(1.0 - q, b); }
    if a > 0.0 { FactorPositive(q, b); }
    if a >= b { FactorNonNegative(q - 1.0, b); }
  }

  /* ---------------- section progress, as written ---------------- */

  /** The scroll handler's progress: 0 before the section's top enters the
      window; while it enters, the fraction of the window above it; once the
      top has passed the window's top, how far it has passed over
      (sectionHeight - windowHeight), capped at 1. */
  function SectionProgress(sectionTop: real, sectionHeight: real, windowHeight: real): JsNum {
    if sectionTop < windowHeight then
      if sectionTop <= 0.0 then JsMin(1.0, Div(RealAbs(sectionTop), sectionHeight - windowHeight))
      else JsMax(0.0, Div(windowHeight - sectionTop, windowHeight))
    else Num(0.0)
  }

  /** For every section and window size, the progress is 0 before the section
      enters, and a number strictly between 0 and 1 while its top is inside
      the window. */
  lemma SectionProgressBelowAndEntering(sectionTop: real, sectionHeight: real, windowHeight: real)
    ensures var p := SectionProgress(sectionTop, sectionHeight, windowHeight);
            && (sectionTop >= windowHeight ==> p == Num(0.0))
            && (0.0 < sectionTop < windowHeight ==> p.Num? && 0.0 < p.v < 1.0)
  {
    if 0.0 < sectionTop < windowHeight {
      QuotientBounds(windowHeight - sectionTop, windowHeight);
    }
  }

  /** Where the section is taller than a non-empty window, the progress is a number
      in [0, 1] everywhere, and capped at 1 once its top has passed; the
      phases before and while entering are those of
      `SectionProgressBelowAndEntering`. */
  lemma SectionProgressTall(sectionTop: real, sectionHeight: real, windowHeight: real)
    requires sectionHeight > windowHeight > 0.0
    ensures var p := SectionProgress(sectionTop, sectionHeight, windowHeight);
            && p.Num? && 0.0 <= p.v <= 1.0
            && (sectionTop >= windowHeight ==> p.v == 0.0)
            && (0.0 < sectionTop < windowHeight ==> 0.0 < p.v < 1.0)
            && (sectionTop <= windowHeight - sectionHeight ==> p.v == 1.0)
  {
    var span := sectionHeight - windowHeight;
    if 0.0 < sectionTop {
      SectionProgressBelowAndEntering(sectionTop, sectionHeight, windowHeight);
    } else {
      assert RealAbs(sectionTop) == -sectionTop;
      QuotientBounds(RealAbs(sectionTop), span);
    }
  }

  /** Progress is not monotone in scrolling: just before the section's top
      reaches the window's top it is nearly 1, and at that point it falls to 0. */
  lemma ProgressDropsAtTop()
    ensures SectionProgress(1.0, 300.0, 100.0) == Num(0.99)
    ensures SectionProgress(0.0, 300.0, 100.0) == Num(0.0)
  {
  }

  /** A section shorter than the window, scrolled past the window's top,
      gets a negative progress, and one exactly as tall as the window gets NaN
      at the moment its top meets the window's top. */
  lemma SectionProgressOutOfRange()
    ensures SectionProgress(-50.0, 400.0, 800.0) == Num(-0.125)
    ensures SectionProgress(0.0, 800.0, 800.0) == NaN
  {
    assert Div(50.0, 400.0 - 800.0) == Num(-0.125);
  }

  /** Corrected progress: the same formula with the in-view branch clamped to
      [0, 1], and a section no taller than the window counted as fully
      scrolled once its top has passed the window's top. */
  function ClampedSectionProgress(sectionTop: real, sectionHeight: real, windowHeight: real): (p: real)
    ensures 0.0 <= p <= 1.0
  {
    if sectionTop >= windowHeight then 0.0
    else if sectionTop <= 0.0 then
      if sectionHeight <= windowHeight then 1.0
      else
        QuotientBounds(RealAbs(sectionTop), sectionHeight - windowHeight);
        var q := RealAbs(sectionTop) / (sectionHeight - windowHeight);
        if q >= 1.0 then 1.0 else q
    else
      QuotientBounds(windowHeight - sectionTop, windowHeight);
      (windowHeight - sectionTop) / windowHeight
  }

  /** The corrected progress agrees with the one the handler computes
      wherever that one is a number in [0, 1]. */
  lemma ClampedAgrees(sectionTop: real, sectionHeight: real, windowHeight: real)
    requires sectionHeight > windowHeight || sectionTop > 0.0
    ensures SectionProgress(sectionTop, sectionHeight, windowHeight) == Num(ClampedSectionProgress(sectionTop, sectionHeight, windowHeight))
  {
    if sectionTop <= 0.0 && sectionTop < windowHeight {
      QuotientBounds(RealAbs(sectionTop), sectionHeight - windowHeight);
    } else if 0.0 < sectionTop < windowHeight {
      QuotientBounds(windowHeight - sectionTop, windowHeight);
    }
  }

  /* ---------------- step illumination ---------------- */

  /** The timeline has five steps, numbered 1 to 5 (indices 0 to 4). */
  const StepCount := 5

  /** What `getStepIllumination` returns. */
  datatype StepLight = StepLight(lit: bool, intensity: real)

  /** `getStepIllumination(index)`: a step is lit from progress 0.1 * index
      on; its intensity climbs linearly from 0 there to 1 at 0.1 * (index + 1). */
  function Illumination(progress: JsNum, index: nat): StepLight {
    var stepStart := index as real * 0.1;
    var stepEnd := (index + 1) as real * 0.1;
    var isIlluminated := AtLeast(progress, stepStart);
    var intensity :=
      if AtLeast(progress, stepStart) then
        if AtLeast(progress, stepEnd) then 1.0
        else (progress.v - stepStart) / (stepEnd - stepStart)
      else 0.0;
    StepLight(isIlluminated, intensity)
  }

  /** A step is lit exactly when progress has reached 0.1 * index; its
      intensity is 0 before that, 1 from 0.1 * (index + 1) on, and between 0
      and 1 in between. */
  lemma IlluminationRange(p: real, index: nat)
    ensures var StepLight(lit, intensity) := Illumination(Num(p), index);
            && (lit <==> p >= index as real * 0.1)
            && 0.0 <= intensity <= 1.0
            && (p < index as real * 0.1 ==> intensity == 0.0)
            && (p >= (index + 1) as real * 0.1 ==> intensity == 1.0)
            && (index as real * 0.1 <= p < (index + 1) as real * 0.1 ==> intensity == (p - index as real * 0.1) / 0.1)
  {
    var s := index as real * 0.1;
    if s <= p < (index + 1) as real * 0.1 {
      assert (index + 1) as real * 0.1 - s == 0.1;
      assert 0.0 <= p - s < 0.1;
    }
  }

  /** More progress never dims a step. */
  lemma IlluminationMonotoneInProgress(p: real, q: real, index: nat)
    requires p <= q
    ensures Illumination(Num(p), index).intensity <= Illumination(Num(q), index).intensity
  {
    IlluminationRange(p, index);
    IlluminationRange(q, index);
    var s := index as real * 0.1;
    if s <= p < (index + 1) as real * 0.1 && s <= q < (index + 1) as real * 0.1 {
      assert (p - s) / 0.1 <= (q - s) / 0.1;
    }
  }

  /** At the same progress a later step is never brighter than an earlier one. */
  lemma IlluminationMonotoneInIndex(p: real, i: nat, j: nat)
    requires i <= j
    ensures Illumination(Num(p), j).intensity <= Illumination(Num(p), i).intensity
  {
    IlluminationRange(p, i);
    IlluminationRange(p, j);
    if i < j {
      var si, sj := i as real * 0.1, j as real * 0.1;
      assert (i + 1) as real * 0.1 <= sj;
      if si <= p < (i + 1) as real * 0.1 {
        assert p < sj;
      }
    }
  }

  /** Once progress reaches 0.5 every one of the five steps is fully lit. */
  lemma AllStepsLit(p: real)
    requires p >= 0.5
    ensures forall index :: 0 <= index < StepCount ==>
              Illumination(Num(p), index).lit && Illumination(Num(p), index).intensity == 1.0
  {
    forall index | 0 <= index < StepCount
      ensures Illumination(Num(p), index).lit && Illumination(Num(p), index).intensity == 1.0
    {
      IlluminationRange(p, index);
    }
  }

  /** A NaN or negative progress leaves every step dark. */
  lemma DarkBelowZero(p: JsNum, index: nat)
    requires p.NaN? || p.NegInf? || (p.Num? && p.v < 0.0)
    ensures !Illumination(p, index).lit && Illumination(p, index).intensity == 0.0
  {
  }
}
