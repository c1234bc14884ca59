/** The control abstraction of the UVC driver (uvc_camera.cpp): the range of a
    V4L2 integer control, clamping a value onto that range's step grid, the
    frame-rate-dependent ceiling for the absolute exposure control, and the
    frames-per-second value of a V4L2 time-per-frame fraction. */
module Controls {
  import opened Common

  /** What VIDIOC_QUERYCTRL reports about a control. */
  datatype QueryCtrl = QueryCtrl(minimum: int, maximum: int, step: int, defaultValue: int)

  /** A control's range; `ok` is false when the control is absent or disabled. */
  datatype CtrlRange = CtrlRange(ok: bool, minV: int, maxV: int, step: int, defV: int)

  /** The value-initialised range `CtrlRange{}`. */
  const NoRange := CtrlRange(false, 0, 0, 1, 0)

  /** A range on which clamping is meaningful: min <= max and a positive step. */
  predicate WellFormed(r: CtrlRange)
  {
    r.ok ==> r.minV <= r.maxV && r.step >= 1
  }

  /** readRange: `q` is the query's result, None when the query failed or the
      control is flagged disabled. A reported step below 1 is raised to 1. */
  function ReadRange(q: Option<QueryCtrl>): (r: CtrlRange)
    ensures r.ok <==> q.Some?
    ensures r.step >= 1
    ensures q.None? ==> r == NoRange
    ensures q.Some? ==> r.minV == q.value.minimum && r.maxV == q.value.maximum
                        && r.defV == q.value.defaultValue
    ensures q.Some? && q.value.step >= 1 ==> r.step == q.value.step
    ensures q.Some? && q.value.step < 1 ==> r.step == 1
    ensures q.Some? && q.value.minimum <= q.value.maximum ==> WellFormed(r)
  {
    match q
    case None => NoRange
    case Some(c) => CtrlRange(true, c.minimum, c.maximum, Max(c.step, 1), c.defaultValue)
  }

  /** `v` lies on the grid minV, minV + step, minV + 2*step, ... */
  predicate OnGrid(r: CtrlRange, v: int)
    requires r.step >= 1
  {
    (v - r.minV) % r.step == 0
  }

  /** clampToRange: identity for an unsupported control; otherwise clamp into
      [minV, maxV] and, for a step above 1, snap down onto the step grid. */
  function ClampToRange(r: CtrlRange, v: int): (x: int)
    ensures !r.ok ==> x == v
    ensures r.ok && WellFormed(r) ==> r.minV <= x <= r.maxV
    ensures r.ok && WellFormed(r) ==> x <= Clamp(v, r.minV, r.maxV)
    ensures r.ok && WellFormed(r) ==> OnGrid(r, x)
    ensures r.ok && WellFormed(r) ==> Clamp(v, r.minV, r.maxV) - x < r.step
  {
    if !r.ok then v
    else
      var c := Clamp(v, r.minV, r.maxV);
      if r.step > 1 then
        var snapped := r.minV + TDiv(c - r.minV, r.step) * r.step;
        assert WellFormed(r) ==> r.minV <= snapped <= c && OnGrid(r, snapped) && c - snapped < r.step by {
          if WellFormed(r) {
            SnapDown(r.minV, c, r.step);
          }
        }
        Clamp(snapped, r.minV, r.maxV)
      else c
  }

  /** Snapping an in-range value down onto the grid from `lo` with spacing
      `step` lands on the grid, at most one step below the value. */
  lemma SnapDown(lo: int, c: int, step: int)
    requires step > 1 && lo <= c
    ensures var s := lo + TDiv(c - lo, step) * step;
      lo <= s <= c && (s - lo) % step == 0 && c - s < step
  {
    var q := (c - lo) / step;
    assert c - lo == q * step + (c - lo) % step;
    MulMonotone(0, q, step);
    MulModZero(q, step);
  }

  /** Clamping twice is clamping once. */
  lemma ClampToRangeIdempotent(r: CtrlRange, v: int)
    requires WellFormed(r)
    ensures ClampToRange(r, ClampToRange(r, v)) == ClampToRange(r, v)
  {
    var x := ClampToRange(r, v);
    if r.ok && r.step > 1 {
      FixedPointOnGrid(r, x);
    }
  }

  /** Every in-range grid point is left where it is. */
  lemma FixedPointOnGrid(r: CtrlRange, x: int)
    requires r.ok && WellFormed(r)
    requires r.minV <= x <= r.maxV && OnGrid(r, x)
    ensures ClampToRange(r, x) == x
  {
    if r.step > 1 {
      var d := x - r.minV;
      assert d == (d / r.step) * r.step + d % r.step;
    }
  }

  /** clampToRange never reverses the order of two values. */
  lemma ClampToRangeMonotone(r: CtrlRange, a: int, b: int)
    requires WellFormed(r) && a <= b
    ensures ClampToRange(r, a) <= ClampToRange(r, b)
  {
    if r.ok && r.step > 1 {
      var ca, cb := Clamp(a, r.minV, r.maxV), Clamp(b, r.minV, r.maxV);
      DivMonotone(ca - r.minV, cb - r.minV, r.step);
      MulMonotone((ca - r.minV) / r.step, (cb - r.minV) / r.step, r.step);
    }
  }

  /** One step down from an in-range grid point above the minimum lands exactly
      one step lower; one step up that stays below the maximum lands exactly one
      step higher. This is the "one step per adjustment" of the exposure loop. */
  lemma OneStepOnGrid(r: CtrlRange, v: int)
    requires r.ok && WellFormed(r)
    requires r.minV <= v <= r.maxV && OnGrid(r, v)
    ensures v > r.minV ==> ClampToRange(r, v - r.step) == v - r.step
    ensures v + r.step <= r.maxV ==> ClampToRange(r, v + r.step) == v + r.step
  {
    var d := v - r.minV;
    assert d == (d / r.step) * r.step;
    if v > r.minV {
      assert d / r.step >= 1;
      assert v - r.step == r.minV + (d / r.step - 1) * r.step;
      MulModZero(d / r.step - 1, r.step);
      FixedPointOnGrid(r, v - r.step);
    }
    if v + r.step <= r.maxV {
      assert v + r.step == r.minV + (d / r.step + 1) * r.step;
      MulModZero(d / r.step + 1, r.step);
      FixedPointOnGrid(r, v + r.step);
    }
  }

  const AeMinExposureUsCap: int := 100
  const AeMaxExposureUsCap: int := 2000

  /** 65% of the frame period in microseconds, the integer counterpart of
      floor(1e6 / fps * 0.65) for fps >= 1. */
  function FramePeriodShareUs(fps: int): (us: nat)
  {
    650000 / Max(1, fps)
  }

  /** exposureCapAbsForFps: 0 for an unsupported exposure control; otherwise
      65% of the frame period, clamped to [100 us, 2000 us], in the control's
      100 us units, and clamped onto the control's range. */
  function ExposureCapAbsForFps(fps: int, exp: CtrlRange): (cap: int)
    ensures !exp.ok ==> cap == 0
    ensures exp.ok && WellFormed(exp) ==> exp.minV <= cap <= exp.maxV
    ensures exp.ok && WellFormed(exp) ==> cap <= Max(AeMaxExposureUsCap / 100, exp.minV)
    ensures exp.ok && WellFormed(exp) ==>
              cap * 100 <= Max(Max(FramePeriodShareUs(fps), AeMinExposureUsCap), 100 * exp.minV)
  {
    if !exp.ok then 0
    else
      var capUs := Clamp(FramePeriodShareUs(fps), AeMinExposureUsCap, AeMaxExposureUsCap);
      var capAbs := Clamp(capUs / 100, exp.minV, exp.maxV);
      ClampToRange(exp, capAbs)
  }

  /** A faster frame rate never raises the exposure ceiling. */
  lemma ExposureCapNonIncreasing(f1: int, f2: int, exp: CtrlRange)
    requires WellFormed(exp) && f1 <= f2
    ensures ExposureCapAbsForFps(f2, exp) <= ExposureCapAbsForFps(f1, exp)
  {
    if exp.ok {
      DivAntitone(650000, Max(1, f1), Max(1, f2));
      var us1 := Clamp(FramePeriodShareUs(f1), AeMinExposureUsCap, AeMaxExposureUsCap);
      var us2 := Clamp(FramePeriodShareUs(f2), AeMinExposureUsCap, AeMaxExposureUsCap);
      DivMonotone(us2, us1, 100);
      ClampToRangeMonotone(exp, Clamp(us2 / 100, exp.minV, exp.maxV), Clamp(us1 / 100, exp.minV, exp.maxV));
    }
  }

  /** The frame rate of a time-per-frame fraction num/den, as `den / num`;
      None unless both are positive. */
  function FpsOfInterval(num: int, den: int): (fps: Option<int>)
    ensures fps.Some? <==> num > 0 && den > 0
    ensures fps.Some? ==> fps.value >= 0 && fps.value * num <= den < (fps.value + 1) * num
  {
    if num > 0 && den > 0 then Some(den / num) else None
  }

  /** A v4l2_fract as the kernel stores it. */
  datatype Fract = Fract(numerator: uint32, denominator: uint32)

  /** readFps: `parm` is the time-per-frame VIDIOC_G_PARM reports, None when the
      ioctl fails; each field goes through an `(int)` cast. */
  function ReadFps(parm: Option<Fract>, fallback: int): (fps: int)
    ensures parm.None? ==> fps == fallback
    ensures parm.Some? && 0 < parm.value.numerator <= Int32Max && 0 < parm.value.denominator <= Int32Max ==>
              fps * parm.value.numerator <= parm.value.denominator < (fps + 1) * parm.value.numerator
    ensures parm.Some? && (parm.value.numerator == 0 || parm.value.numerator > Int32Max) ==> fps == fallback
    ensures parm.Some? && (parm.value.denominator == 0 || parm.value.denominator > Int32Max) ==> fps == fallback
  {
    match parm
    case None => fallback
    case Some(p) =>
      match FpsOfInterval(AsInt32(p.numerator), AsInt32(p.denominator))
      case Some(f) => f
      case None => fallback
  }
}
