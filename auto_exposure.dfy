/** The software auto-exposure controller of the UVC driver
    (autoExposureMaybeAdjust in uvc_camera.cpp, and the part of applyControls
    that arms it). Device reads and writes are inputs: the value a control read
    returned, if any, and whether a control write succeeded. */
module AutoExposure {
  import opened Common
  import opened Controls
  import opened Negotiation

  const TargetLuma: int := 80
  const Tolerance: int := 3
  const AdjustIntervalNs: int := 60 * 1000000

  /** The one control write a step may issue. */
  datatype Write = NoWrite | SetGain(gain: int) | SetExposure(exposure: int)

  /** The controller's mutable state (gCurExpAbs, gCurGain, gLastAeAdjustNs). */
  datatype AeState = AeState(curExp: int, curGain: int, lastAdjustNs: int)

  /** What a step reads but never changes: the enable flag, whether the device
      is open, both control ranges and the negotiated frame rate. */
  datatype AeConfig = AeConfig(enabled: bool, deviceOpen: bool, exp: CtrlRange, gain: CtrlRange, chosenFps: int)

  /** The device's answers during one step: the VIDIOC_G_CTRL results for
      exposure and gain (None when the read fails), and whether the one
      VIDIOC_S_CTRL the step issues succeeds. */
  datatype DeviceIo = DeviceIo(readExp: Option<int>, readGain: Option<int>, writeOk: bool)

  predicate TooBright(luma: int) { luma > TargetLuma + Tolerance }

  predicate TooDark(luma: int) { luma < TargetLuma - Tolerance }

  /** The step is let through: enabled, a positive sample, and the interval
      since the last adjustment (if any) has elapsed. */
  predicate Admitted(c: AeConfig, s: AeState, luma: int, now: int)
  {
    c.enabled && luma > 0 && (s.lastAdjustNs == 0 || now - s.lastAdjustNs >= AdjustIntervalNs)
  }

  /** The exposure ceiling used while adjusting: the cap for the negotiated
      rate, taken as at least 30 fps. */
  function AeExposureCap(c: AeConfig): int
  {
    ExposureCapAbsForFps(Max(c.chosenFps, 30), c.exp)
  }

  /** The current exposure the step works from: the stored one, or the
      device's reading when the stored one is 0 and the read succeeds. */
  function WorkingExposure(c: AeConfig, s: AeState, io: DeviceIo): int
  {
    if c.exp.ok && s.curExp == 0 && io.readExp.Some? then io.readExp.value else s.curExp
  }

  function WorkingGain(c: AeConfig, s: AeState, io: DeviceIo): int
  {
    if c.gain.ok && s.curGain == 0 && io.readGain.Some? then io.readGain.value else s.curGain
  }

  /** The write the controller attempts, from working values `exp` and `gain`:
      too bright lowers gain first, then exposure; too dark raises exposure
      first, up to the ceiling, then gain. A computed value equal to the
      current one is not written, and there is no fallback to the other control. */
  function ChooseWrite(c: AeConfig, exp: int, gain: int, luma: int): Write
  {
    if TooBright(luma) then
      if c.gain.ok && gain > c.gain.minV then
        var next := ClampToRange(c.gain, gain - c.gain.step);
        if next != gain then SetGain(next) else NoWrite
      else if c.exp.ok && exp > c.exp.minV then
        var next := ClampToRange(c.exp, exp - c.exp.step);
        if next != exp then SetExposure(next) else NoWrite
      else NoWrite
    else if TooDark(luma) then
      var cap := AeExposureCap(c);
      if c.exp.ok && cap > 0 && exp < cap then
        var next := ClampToRange(c.exp, Min(exp + c.exp.step, cap));
        if next != exp then SetExposure(next) else NoWrite
      else if c.gain.ok && gain < c.gain.maxV then
        var next := ClampToRange(c.gain, gain + c.gain.step);
        if next != gain then SetGain(next) else NoWrite
      else NoWrite
    else NoWrite
  }

  /** One call of autoExposureMaybeAdjust: the new state and the attempted write. */
  function Step(c: AeConfig, s: AeState, luma: int, now: int, io: DeviceIo): (AeState, Write)
  {
    if !Admitted(c, s, luma, now) then (s, NoWrite)
    else
      var s1 := s.(lastAdjustNs := now);
      if -Tolerance <= luma - TargetLuma <= Tolerance || !c.deviceOpen then (s1, NoWrite)
      else
        var exp, gain := WorkingExposure(c, s, io), WorkingGain(c, s, io);
        var w := ChooseWrite(c, exp, gain, luma);
        match w
        case NoWrite => (s1, NoWrite)
        case SetGain(g) => (if io.writeOk then AeState(exp, g, now) else s1, w)
        case SetExposure(e) => (if io.writeOk then AeState(e, gain, now) else s1, w)
  }

  /** A refused step (disabled, non-positive sample, or inside the 60 ms
      interval) changes nothing and writes nothing. */
  lemma RefusedStepIsQuiet(c: AeConfig, s: AeState, luma: int, now: int, io: DeviceIo)
    requires !c.enabled || luma <= 0 || (s.lastAdjustNs != 0 && now - s.lastAdjustNs < AdjustIntervalNs)
    ensures Step(c, s, luma, now, io) == (s, NoWrite)
  {
  }

  /** Inside the dead band only the adjustment timestamp moves (the
      compare-and-swap happens before the dead-band test). */
  lemma DeadBandOnlyStampsTime(c: AeConfig, s: AeState, luma: int, now: int, io: DeviceIo)
    requires Admitted(c, s, luma, now)
    requires TargetLuma - Tolerance <= luma <= TargetLuma + Tolerance
    ensures Step(c, s, luma, now, io) == (s.(lastAdjustNs := now), NoWrite)
  {
  }

  /** Exposure and gain are stored only when a write was issued and succeeded,
      and then the written control takes exactly the written value. */
  lemma CommitOnlyOnSuccess(c: AeConfig, s: AeState, luma: int, now: int, io: DeviceIo)
    ensures var (s', w) := Step(c, s, luma, now, io);
            (s'.curExp != s.curExp || s'.curGain != s.curGain) ==> w != NoWrite && io.writeOk
    ensures var (s', w) := Step(c, s, luma, now, io);
            !io.writeOk ==> s'.curExp == s.curExp && s'.curGain == s.curGain
    ensures var (s', w) := Step(c, s, luma, now, io);
            io.writeOk && w.SetGain? ==> s'.curGain == w.gain
    ensures var (s', w) := Step(c, s, luma, now, io);
            io.writeOk && w.SetExposure? ==> s'.curExp == w.exposure
    ensures var (s', w) := Step(c, s, luma, now, io);
            s'.lastAdjustNs == (if Admitted(c, s, luma, now) then now else s.lastAdjustNs)
  {
  }

  /** Every issued write stays inside its control's range; an exposure
      increase never passes the frame-rate ceiling, and a gain or exposure
      decrease really lowers the value. */
  lemma WritesStayInRange(c: AeConfig, exp: int, gain: int, luma: int)
    requires WellFormed(c.exp) && WellFormed(c.gain)
    ensures var w := ChooseWrite(c, exp, gain, luma);
            w.SetGain? ==> c.gain.ok && c.gain.minV <= w.gain <= c.gain.maxV
    ensures var w := ChooseWrite(c, exp, gain, luma);
            w.SetExposure? ==> c.exp.ok && c.exp.minV <= w.exposure <= c.exp.maxV
    ensures var w := ChooseWrite(c, exp, gain, luma);
            w.SetExposure? && TooDark(luma) ==> exp < w.exposure <= AeExposureCap(c)
    ensures var w := ChooseWrite(c, exp, gain, luma);
            w.SetExposure? && TooBright(luma) ==> w.exposure < exp
    ensures var w := ChooseWrite(c, exp, gain, luma);
            w.SetGain? && TooBright(luma) ==> w.gain < gain
  {
    var w := ChooseWrite(c, exp, gain, luma);
    if w.SetExposure? && TooDark(luma) {
      var cap := AeExposureCap(c);
      var target := Min(exp + c.exp.step, cap);
      assert c.exp.minV <= cap;
      assert c.exp.minV <= target || target == exp + c.exp.step;
      if target == cap {
        FixedPointOnGrid(c.exp, cap);
      } else {
        ClampToRangeMonotone(c.exp, target, cap);
        FixedPointOnGrid(c.exp, cap);
        // A grid point lies in (exp, exp + step] unless exp is below minV.
        assert Clamp(target, c.exp.minV, c.exp.maxV) - w.exposure < c.exp.step;
      }
    }
  }

  /** Too bright: exposure is touched only when gain cannot be lowered. */
  lemma BrightPrefersGain(c: AeConfig, exp: int, gain: int, luma: int)
    requires TooBright(luma)
    ensures ChooseWrite(c, exp, gain, luma).SetExposure? ==> !(c.gain.ok && gain > c.gain.minV)
    ensures c.gain.ok && gain > c.gain.minV ==> !ChooseWrite(c, exp, gain, luma).SetExposure?
  {
  }

  /** Too dark: gain is touched only when exposure has reached the ceiling. */
  lemma DarkPrefersExposure(c: AeConfig, exp: int, gain: int, luma: int)
    requires TooDark(luma)
    ensures ChooseWrite(c, exp, gain, luma).SetGain? ==> !(c.exp.ok && AeExposureCap(c) > 0 && exp < AeExposureCap(c))
    ensures c.exp.ok && AeExposureCap(c) > 0 && exp < AeExposureCap(c) ==> !ChooseWrite(c, exp, gain, luma).SetGain?
  {
  }

  /** From an in-range value on the step grid, each write moves exactly one
      step (an exposure increase stops at the ceiling). */
  lemma MovesOneStep(c: AeConfig, exp: int, gain: int, luma: int)
    requires c.exp.ok && WellFormed(c.exp) && c.gain.ok && WellFormed(c.gain)
    requires c.exp.minV <= exp <= c.exp.maxV && OnGrid(c.exp, exp)
    requires c.gain.minV <= gain <= c.gain.maxV && OnGrid(c.gain, gain)
    ensures var w := ChooseWrite(c, exp, gain, luma);
            w.SetGain? ==> w.gain == (if TooBright(luma) then gain - c.gain.step else gain + c.gain.step)
    ensures var w := ChooseWrite(c, exp, gain, luma);
            w.SetExposure? ==> w.exposure == (if TooBright(luma) then exp - c.exp.step
                                              else Min(exp + c.exp.step, AeExposureCap(c)))
  {
    if TooBright(luma) {
      OneStepOnGrid(c.exp, exp);
      OneStepOnGrid(c.gain, gain);
    } else if TooDark(luma) {
      var cap := AeExposureCap(c);
      if exp + c.exp.step > cap {
        FixedPointOnGrid(c.exp, cap);
      } else {
        OneStepOnGrid(c.exp, exp);
      }
      if gain + c.gain.step > c.gain.maxV {
        TopOfGrid(c.gain, gain);
      } else {
        OneStepOnGrid(c.gain, gain);
      }
    }
  }

  /** From the highest grid point, one step up snaps back to that point. */
  lemma TopOfGrid(r: CtrlRange, v: int)
    requires r.ok && WellFormed(r)
    requires r.minV <= v <= r.maxV && OnGrid(r, v) && v + r.step > r.maxV
    ensures ClampToRange(r, v + r.step) == v
  {
    var d := v - r.minV;
    assert d == (d / r.step) * r.step;
    var g := r.maxV - r.minV;
    DivModUnique(g, r.step, d / r.step, g - d);
  }

  /** The initial absolute exposure applyControls writes when the published
      format is not MJPEG (so for every mode setupLocked tries):
      a quarter of the way from the minimum to the ceiling, on the grid. */
  function InitialExposure(fps: int, exp: CtrlRange): (v: int)
    ensures exp.ok && WellFormed(exp) ==> exp.minV <= v <= ExposureCapAbsForFps(fps, exp)
    ensures exp.ok && WellFormed(exp) ==> OnGrid(exp, v)
  {
    var cap := ExposureCapAbsForFps(fps, exp);
    var v := ClampToRange(exp, exp.minV + TDiv(cap - exp.minV, 4));
    assert exp.ok && WellFormed(exp) ==> v <= cap by {
      if exp.ok && WellFormed(exp) {
        ClampToRangeMonotone(exp, exp.minV + TDiv(cap - exp.minV, 4), cap);
        FixedPointOnGrid(exp, cap);
      }
    }
    v
  }

  // ---------------------------------------------------------------------
  // Arming the controller in applyControls
  // ---------------------------------------------------------------------

  /** Whether applyControls leaves the software controller enabled. It takes
      its MJPEG branch (hardware exposure, controller off) when the format it
      tests is MJPEG; otherwise it enables the controller when exposure or
      gain exists. */
  predicate ArmedBy(testedFourcc: uint32, exp: CtrlRange, gain: CtrlRange)
  {
    testedFourcc != FourccMjpeg && (exp.ok || gain.ok)
  }

  /** The value of gChosenFourcc whenever setupLocked's candidate loop calls
      applyControls: teardownLocked clears it before every setup, and the
      negotiated format is published only after the loop. */
  const FourccDuringSetup: uint32 := 0

  /** As written, applyControls tests the published format, so during setup
      it arms the controller for every tried mode, MJPEG included, exactly
      when exposure or gain exists; the MJPEG branch is never taken. */
  lemma SetupArmsSoftwareAe(trialFourcc: uint32, expQuery: Option<QueryCtrl>, gainQuery: Option<QueryCtrl>)
    ensures ArmedBy(FourccDuringSetup, ReadRange(expQuery), ReadRange(gainQuery)) <==> expQuery.Some? || gainQuery.Some?
    ensures trialFourcc == FourccMjpeg && expQuery.Some? ==>
      ArmedBy(FourccDuringSetup, ReadRange(expQuery), ReadRange(gainQuery))
      && !ArmedBy(trialFourcc, ReadRange(expQuery), ReadRange(gainQuery))
  {
  }

  /** The evident intent, testing the format being tried: an MJPEG mode
      leaves exposure to the device, and a YUYV mode arms the controller
      exactly as the code does now. */
  lemma TrialFormatDecides(trialFourcc: uint32, exp: CtrlRange, gain: CtrlRange)
    ensures trialFourcc == FourccMjpeg ==> !ArmedBy(trialFourcc, exp, gain)
    ensures trialFourcc == FourccYuyv ==> (ArmedBy(trialFourcc, exp, gain) <==> ArmedBy(FourccDuringSetup, exp, gain))
  {
  }

  /** The controller's globals, updated in place, and the published format
      gChosenFourcc that applyControls reads. */
  class AeController {
    var enabled: bool
    var deviceOpen: bool
    var exp: CtrlRange
    var gain: CtrlRange
    var chosenFps: int
    var curExpAbs: int
    var curGain: int
    var lastAdjustNs: int
    var chosenFourcc: uint32

    function Config(): AeConfig
      reads this
    {
      AeConfig(enabled, deviceOpen, exp, gain, chosenFps)
    }

    function State(): AeState
      reads this
    {
      AeState(curExpAbs, curGain, lastAdjustNs)
    }

    /** The state teardownLocked leaves: disabled, no ranges, zeroed values,
        no published format. */
    constructor ()
      ensures Config() == AeConfig(false, false, NoRange, NoRange, 0)
      ensures State() == AeState(0, 0, 0)
      ensures chosenFourcc == FourccDuringSetup
    {
      enabled, deviceOpen, exp, gain, chosenFps := false, false, NoRange, NoRange, 0;
      curExpAbs, curGain, lastAdjustNs := 0, 0, 0;
      chosenFourcc := 0;
    }

    /** setupLocked storing the descriptor openBestNode returned; the
        controller steps only while it is a valid one. */
    method OpenDevice(fd: int)
      modifies this`deviceOpen
      ensures deviceOpen <==> fd >= 0
    {
      deviceOpen := fd >= 0;
    }

    /** setupLocked publishing the negotiated rate after its loop: the best
        accepted trial's rate, or the target when no trial reported one. */
    method PublishFps(bestGotFps: int, want: int)
      modifies this`chosenFps
      ensures bestGotFps > 0 ==> chosenFps == bestGotFps
      ensures bestGotFps <= 0 ==> chosenFps == want
    {
      chosenFps := if bestGotFps > 0 then bestGotFps else want;
    }

    /** setupLocked publishing the negotiated pixel format after its loop. */
    method PublishFourcc(fourcc: uint32)
      modifies this`chosenFourcc
      ensures chosenFourcc == fourcc
    {
      chosenFourcc := fourcc;
    }

    /** The exposure part of applyControls: reads both ranges; when the
        published format is MJPEG hands exposure to the device and disables
        this controller; otherwise writes a starting exposure and the minimum
        gain, storing each only if its write succeeds, and enables the
        controller when either control exists. */
    method ApplyAeControls(fps: int, expQuery: Option<QueryCtrl>, gainQuery: Option<QueryCtrl>,
                           expWriteOk: bool, gainWriteOk: bool)
      modifies this`exp, this`gain, this`enabled, this`curExpAbs, this`curGain
      ensures exp == ReadRange(expQuery) && gain == ReadRange(gainQuery)
      ensures enabled == ArmedBy(chosenFourcc, exp, gain)
      ensures var initFps := if fps > 0 then fps else 60;
              curExpAbs == (if chosenFourcc != FourccMjpeg && exp.ok && ExposureCapAbsForFps(initFps, exp) > 0 && expWriteOk
                            then InitialExposure(initFps, exp) else old(curExpAbs))
      ensures curGain == (if chosenFourcc != FourccMjpeg && gain.ok && gainWriteOk then ClampToRange(gain, gain.minV) else old(curGain))
      ensures WellFormed(exp) && chosenFourcc != FourccMjpeg && exp.ok && curExpAbs != old(curExpAbs) ==>
                exp.minV <= curExpAbs <= ExposureCapAbsForFps(if fps > 0 then fps else 60, exp)
    {
      exp := ReadRange(expQuery);
      gain := ReadRange(gainQuery);
      var isMjpeg := chosenFourcc == FourccMjpeg;
      if isMjpeg {
        enabled := false;
      } else {
        var initFps := if fps > 0 then fps else 60;
        var cap := ExposureCapAbsForFps(initFps, exp);
        if exp.ok && cap > 0 {
          var initExp := InitialExposure(initFps, exp);
          if expWriteOk {
            curExpAbs := initExp;
          }
        }
        if gain.ok {
          var initGain := ClampToRange(gain, gain.minV);
          if gainWriteOk {
            curGain := initGain;
          }
        }
        enabled := exp.ok || gain.ok;
      }
    }

    /** autoExposureMaybeAdjust(avgLuma) at time `now`; returns the control
        write it issued. */
    method MaybeAdjust(avgLuma: int, now: int, io: DeviceIo) returns (w: Write)
      modifies this`curExpAbs, this`curGain, this`lastAdjustNs
      ensures (State(), w) == Step(old(Config()), old(State()), avgLuma, now, io)
    {
      w := NoWrite;
      if !enabled { return; }
      if avgLuma <= 0 { return; }
      var last := lastAdjustNs;
      if last != 0 && now - last < AdjustIntervalNs { return; }
      lastAdjustNs := now;

      if -Tolerance <= avgLuma - TargetLuma <= Tolerance { return; }
      if !deviceOpen { return; }

      var curExp := curExpAbs;
      var cur := curGain;
      if exp.ok && curExp == 0 && io.readExp.Some? {
        curExp := io.readExp.value;
      }
      if gain.ok && cur == 0 && io.readGain.Some? {
        cur := io.readGain.value;
      }
      w := ChooseWrite(Config(), curExp, cur, avgLuma);
      if io.writeOk && w != NoWrite {
        match w
        case SetGain(g) =>
          curExpAbs, curGain := curExp, g;
        case SetExposure(e) =>
          curExpAbs, curGain := e, cur;
      }
    }
  }
}
