/** UvcAction.kt: the UI-side controller of the external (UVC) preview. It
    guards the native start and stop with the started/starting flags, and
    when a start completes it caches the native "chosen mode" string and
    takes the buffer size and pixel-format token from it. Each dispatched
    start carries its number, and its completion is applied only while it is
    the latest start and still pending (see StartGuard.StepCorrected). */
module UvcUi {
  import opened Common
  import opened StartGuard
  import opened ModeString

  /** The controller's state as values: the guard flags, the number of
      starts dispatched, the mode and format caches and the SurfaceTexture
      buffer size. */
  datatype ExtView = ExtView(flags: Flags, gen: nat, modeCache: seq<char>, fmtCache: seq<char>, bufW: int, bufH: int)

  /** The state before the first start: 1920 x 1080, empty caches. */
  const InitialView: ExtView := ExtView(Idle, 0, "", "", 1920, 1080)

  /** updateExtBufFromModeString: the size from the first "W x H" in the
      mode when both are positive 32-bit integers, and the format cache set
      to the mode's first whitespace-separated token. */
  function UpdateFromMode(v: ExtView, mode: seq<char>): ExtView
  {
    var (w, h) := UpdatedDims(mode, v.bufW, v.bufH);
    v.(bufW := w, bufH := h, fmtCache := FmtToken(mode))
  }

  /** maybeStartExt: the guard, and a new start number when dispatched. */
  function Requested(v: ExtView, hasSurface: bool, hasPermission: bool): (ExtView, bool)
  {
    var (f, dispatched) := TryStart(v.flags, hasSurface, hasPermission);
    (v.(flags := f, gen := if dispatched then v.gen + 1 else v.gen), dispatched)
  }

  /** The effect of the start job's completion posted to the UI thread. `ok`
      is the job's result (access prepared and the native start succeeded)
      and `nativeMode` what nativeGetExtChosenMode would return; the job
      asks for it only on success. */
  function Completed(v: ExtView, ok: bool, nativeMode: seq<char>): ExtView
  {
    var mode := if ok then nativeMode else "";
    var v' := v.(flags := Complete(v.flags, ok), modeCache := mode);
    if IsNotBlank(mode) then UpdateFromMode(v', mode) else v'.(fmtCache := "")
  }

  /** The completion of start number n: applied only when it is current. */
  function Finished(v: ExtView, n: nat, ok: bool, nativeMode: seq<char>): ExtView
  {
    if IsCurrent(v.flags, v.gen, n) then Completed(v, ok, nativeMode) else v
  }

  /** stopExt: when the camera was started or starting, clear the flags and
      both caches and dispatch the native stop (second component). The
      buffer size is kept. */
  function Stopped(v: ExtView): (ExtView, bool)
  {
    var (f, dispatched) := Stop(v.flags);
    if dispatched then (v.(flags := f, modeCache := "", fmtCache := ""), true) else (v, false)
  }

  /** maybeStartExt dispatches exactly when there is a surface and
      permission and the camera is idle; it then sets starting and numbers
      the start, and touches nothing else. No second start is dispatched
      before the first completes or is stopped. */
  lemma RequestedGuard(v: ExtView, hasSurface: bool, hasPermission: bool)
    ensures var (v', d) := Requested(v, hasSurface, hasPermission);
      (d <==> hasSurface && hasPermission && v.flags == Idle)
      && (d ==> v' == v.(flags := Flags(false, true), gen := v.gen + 1) && IsCurrent(v'.flags, v'.gen, v'.gen))
      && (!d ==> v' == v)
    ensures var (v', d) := Requested(v, hasSurface, hasPermission);
      d ==> !Requested(v', hasSurface, hasPermission).1
  {
  }

  /** After the current completion the caches hold the returned mode and its
      format token (or are empty when the mode is blank), the flags say
      whether the start succeeded, and the size changes only to a positive
      32-bit size parsed from the mode. A failed start clears the caches and
      keeps the size. */
  lemma CompletedCaches(v: ExtView, ok: bool, nativeMode: seq<char>)
    ensures Completed(v, ok, nativeMode).flags == Flags(ok, false)
    ensures Completed(v, ok, nativeMode).modeCache == if ok then nativeMode else ""
    ensures ok && IsNotBlank(nativeMode) ==> Completed(v, ok, nativeMode).fmtCache == FmtToken(nativeMode)
    ensures !(ok && IsNotBlank(nativeMode)) ==>
      Completed(v, ok, nativeMode).fmtCache == "" && Completed(v, ok, nativeMode).bufW == v.bufW
    ensures !(ok && IsNotBlank(nativeMode)) ==> Completed(v, ok, nativeMode).bufH == v.bufH
    ensures var c := Completed(v, ok, nativeMode);
      (c.bufW, c.bufH) == (v.bufW, v.bufH) || (0 < c.bufW <= Int32Max && 0 < c.bufH <= Int32Max)
  {
    var mode := if ok then nativeMode else "";
    if !ok {
      assert !IsNotBlank(mode);
    }
  }

  /** When the native side reports the mode it chose, written by
      chosenMode() in uvc_camera.cpp, the controller ends up with exactly
      that frame size and that pixel format's four-character tag. */
  lemma CompletedWithChosenMode(v: ExtView, fourcc: uint32, w: int, h: int)
    requires TagFourcc(fourcc) && 0 < w <= Int32Max && 0 < h <= Int32Max
    ensures var c := Completed(v, true, ChosenMode(fourcc, w, h));
      c.flags.started && !c.flags.starting && c.modeCache == ChosenMode(fourcc, w, h)
      && c.bufW == w && c.bufH == h && c.fmtCache == FourccToStr(fourcc)
  {
    ChosenModeRoundTrip(fourcc, w, h);
    var mode := ChosenMode(fourcc, w, h);
    var vs := v.(flags := Complete(v.flags, true), modeCache := mode);
    ChosenModeDims(fourcc, w, h);
    assert UpdatedDims(mode, vs.bufW, vs.bufH) == (w, h);
  }

  /** stopExt acts exactly when started or starting; it then clears both
      caches and the flags and keeps the size. Stopping twice is stopping
      once. */
  lemma StoppedClears(v: ExtView)
    ensures Stopped(v).1 <==> v.flags.started || v.flags.starting
    ensures Stopped(v).1 ==> Stopped(v).0 == ExtView(Idle, v.gen, "", "", v.bufW, v.bufH)
    ensures !Stopped(v).1 ==> Stopped(v).0 == v
    ensures Stopped(Stopped(v).0) == (Stopped(v).0, false)
  {
  }

  /** A stop during a pending start wins: the late completion changes
      nothing, so the camera is not reported started and the next
      maybeStartExt is let through. */
  lemma StopBeatsLateCompletion(v: ExtView, ok: bool, nativeMode: seq<char>)
    requires v.flags.starting
    ensures var s := Stopped(v).0;
      Finished(s, v.gen, ok, nativeMode) == s && s.flags == Idle
      && Requested(Finished(s, v.gen, ok, nativeMode), true, true).1
  {
  }

  /** The controller object; the permission provider and the surface are
      inputs of maybeStartExt. */
  class UvcAction {
    var extStarted: bool
    var extStarting: bool
    var extGen: nat
    var extModeCache: seq<char>
    var extFmtCache: seq<char>
    var extBufW: int
    var extBufH: int

    function View(): ExtView
      reads this
    {
      ExtView(Flags(extStarted, extStarting), extGen, extModeCache, extFmtCache, extBufW, extBufH)
    }

    constructor()
      ensures View() == InitialView
    {
      extStarted, extStarting, extGen := false, false, 0;
      extModeCache, extFmtCache := "", "";
      extBufW, extBufH := 1920, 1080;
    }

    /** maybeStartExt: returns whether the start job was dispatched and the
        number its completion carries. */
    method MaybeStartExt(hasSurface: bool, hasPermission: bool) returns (dispatched: bool, ticket: nat)
      modifies this
      ensures (View(), dispatched) == Requested(old(View()), hasSurface, hasPermission)
      ensures ticket == extGen
    {
      ticket := extGen;
      if !hasSurface || !hasPermission {
        return false, ticket;
      }
      if extStarted || extStarting {
        return false, ticket;
      }
      extStarting := true;
      extGen := extGen + 1;
      dispatched, ticket := true, extGen;
    }

    /** The completion of start number `ticket` on the UI thread. */
    method OnStartDone(ticket: nat, ok: bool, nativeMode: seq<char>)
      modifies this
      ensures View() == Finished(old(View()), ticket, ok, nativeMode)
    {
      if !extStarting || ticket != extGen {
        return;
      }
      var mode := if ok then nativeMode else "";
      extStarting := false;
      extStarted := ok;
      extModeCache := mode;
      if IsNotBlank(mode) {
        UpdateExtBufFromModeString(mode);
      } else {
        extFmtCache := "";
      }
    }

    /** stopExt: returns whether the native stop was dispatched. */
    method StopExt() returns (dispatched: bool)
      modifies this
      ensures (View(), dispatched) == Stopped(old(View()))
    {
      if !extStarted && !extStarting {
        return false;
      }
      extStarted := false;
      extStarting := false;
      extModeCache := "";
      extFmtCache := "";
      dispatched := true;
    }

    method UpdateExtBufFromModeString(mode: seq<char>)
      modifies this
      ensures View() == UpdateFromMode(old(View()), mode)
    {
      var d := UpdatedDims(mode, extBufW, extBufH);
      extBufW, extBufH := d.0, d.1;
      extFmtCache := FmtToken(mode);
    }
  }
}
