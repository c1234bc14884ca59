/** MainActivity.kt: the single-activity variant that runs the back camera
    and the external camera side by side in two oval views. Each camera has
    its own started/starting guard; the external buffer size follows the
    native mode string; the ovals are sized to fit the stage. As in UvcUi,
    each dispatched start carries its number and its completion is applied
    only while it is the latest start and still pending. */
module MainUi {
  import opened Common
  import opened StartGuard
  import opened ModeString

  /** The activity's camera state as values. */
  datatype MainView = MainView(back: Flags, backGen: nat, ext: Flags, extGen: nat, extBufW: int, extBufH: int)

  /** The state at creation: both cameras idle, external buffer 1280 x 720. */
  const InitialView: MainView := MainView(Idle, 0, Idle, 0, 1280, 720)

  /** updateExtBufFromModeString: only the size; this variant keeps no
      format cache. */
  function UpdateFromMode(v: MainView, mode: seq<char>): MainView
  {
    var (w, h) := UpdatedDims(mode, v.extBufW, v.extBufH);
    v.(extBufW := w, extBufH := h)
  }

  function BackRequested(v: MainView, hasSurface: bool, hasPermission: bool): (MainView, bool)
  {
    var (f, dispatched) := TryStart(v.back, hasSurface, hasPermission);
    (v.(back := f, backGen := if dispatched then v.backGen + 1 else v.backGen), dispatched)
  }

  function ExtRequested(v: MainView, hasSurface: bool, hasPermission: bool): (MainView, bool)
  {
    var (f, dispatched) := TryStart(v.ext, hasSurface, hasPermission);
    (v.(ext := f, extGen := if dispatched then v.extGen + 1 else v.extGen), dispatched)
  }

  /** The completion of back start number n. */
  function BackFinished(v: MainView, n: nat, ok: bool): MainView
  {
    if IsCurrent(v.back, v.backGen, n) then v.(back := Complete(v.back, ok)) else v
  }

  /** The effect of the external start job's completion: the mode is read
      only on success, and the size is updated only from a non-blank mode. */
  function ExtCompleted(v: MainView, ok: bool, nativeMode: seq<char>): MainView
  {
    var mode := if ok then nativeMode else "";
    var v' := v.(ext := Complete(v.ext, ok));
    if IsNotBlank(mode) then UpdateFromMode(v', mode) else v'
  }

  /** The completion of external start number n. */
  function ExtFinished(v: MainView, n: nat, ok: bool, nativeMode: seq<char>): MainView
  {
    if IsCurrent(v.ext, v.extGen, n) then ExtCompleted(v, ok, nativeMode) else v
  }

  /** The two cameras' guards are independent: requesting, completing or
      stopping one never changes the other's flags, and neither start is
      dispatched twice while started or starting. */
  lemma GuardsIndependent(v: MainView, s: bool, p: bool, n: nat, ok: bool, nativeMode: seq<char>)
    ensures BackRequested(v, s, p).0.ext == v.ext && ExtRequested(v, s, p).0.back == v.back
    ensures BackFinished(v, n, ok).ext == v.ext && ExtFinished(v, n, ok, nativeMode).back == v.back
    ensures BackRequested(v, s, p).1 <==> s && p && v.back == Idle
    ensures ExtRequested(v, s, p).1 <==> s && p && v.ext == Idle
    ensures BackRequested(v, s, p).1 ==> !BackRequested(BackRequested(v, s, p).0, s, p).1
    ensures ExtRequested(v, s, p).1 ==> !ExtRequested(ExtRequested(v, s, p).0, s, p).1
    ensures IsCurrent(v.back, v.backGen, n) ==> BackFinished(v, n, ok).back == Flags(ok, false)
    ensures IsCurrent(v.ext, v.extGen, n) ==> ExtFinished(v, n, ok, nativeMode).ext == Flags(ok, false)
    ensures BackFinished(v, n, ok).extBufW == v.extBufW && BackFinished(v, n, ok).extBufH == v.extBufH
  {
  }

  /** A failed external start keeps the size; a successful one changes the
      size only to a positive 32-bit size parsed from the mode. */
  lemma ExtCompletedSize(v: MainView, ok: bool, nativeMode: seq<char>)
    ensures !ok ==> ExtCompleted(v, ok, nativeMode) == v.(ext := Flags(false, false))
    ensures var c := ExtCompleted(v, ok, nativeMode);
      (c.extBufW, c.extBufH) == (v.extBufW, v.extBufH) || (0 < c.extBufW <= Int32Max && 0 < c.extBufH <= Int32Max)
  {
    if !ok {
      assert !IsNotBlank("");
    }
  }

  /** With the mode chosenMode() prints, the size becomes exactly the
      chosen frame size. */
  lemma ExtCompletedWithChosenMode(v: MainView, fourcc: uint32, w: int, h: int)
    requires TagFourcc(fourcc) && 0 < w <= Int32Max && 0 < h <= Int32Max
    ensures var c := ExtCompleted(v, true, ChosenMode(fourcc, w, h));
      c.ext == Flags(true, false) && c.back == v.back && c.extBufW == w && c.extBufH == h
  {
    ChosenModeRoundTrip(fourcc, w, h);
    ChosenModeDims(fourcc, w, h);
    var mode := ChosenMode(fourcc, w, h);
    var vs := v.(ext := Complete(v.ext, true));
    assert UpdatedDims(mode, vs.extBufW, vs.extBufH) == (w, h);
  }

  /** For either camera, a stop during a pending start wins: the late
      completion of that start changes nothing, the camera is not reported
      started, and the next start request is let through. */
  lemma StopBeatsLateCompletion(v: MainView, ok: bool, nativeMode: seq<char>)
    ensures v.back.starting ==> var s := v.(back := Stop(v.back).0);
      BackFinished(s, v.backGen, ok) == s && s.back == Idle && BackRequested(s, true, true).1
    ensures v.ext.starting ==> var s := v.(ext := Stop(v.ext).0);
      ExtFinished(s, v.extGen, ok, nativeMode) == s && s.ext == Idle && ExtRequested(s, true, true).1
  {
  }

  // ---------------------------------------------------------------------
  // Oval layout
  // ---------------------------------------------------------------------

  /** An oval of diameter `size` fits: no larger than the desired diameter,
      no taller than the inner height, and two of them with the gap no wider
      than the inner width. */
  predicate Fits(size: int, innerW: int, innerH: int, desired: int, gap: int)
  {
    size <= desired && size <= innerH && 2 * size + gap <= innerW
  }

  /** layoutOvals: the diameter of both ovals for a stage of w x h pixels
      with the given padding, desired diameter and gap (dp already converted
      to pixels), or None when the layout is skipped. The float division by
      2 followed by toInt truncates toward zero. */
  function OvalSize(w: int, h: int, padL: int, padR: int, padT: int, padB: int, desired: int, gap: int): (r: Option<int>)
    ensures r.None? <==> w == 0 || h == 0 || w - padL - padR <= 0 || h - padT - padB <= 0
    ensures r.Some? ==> r.value >= 1
    ensures r.Some? && Fits(1, w - padL - padR, h - padT - padB, desired, gap) ==>
      Fits(r.value, w - padL - padR, h - padT - padB, desired, gap)
    ensures r.Some? && Fits(1, w - padL - padR, h - padT - padB, desired, gap) ==>
      !Fits(r.value + 1, w - padL - padR, h - padT - padB, desired, gap)
    ensures r.Some? && !Fits(1, w - padL - padR, h - padT - padB, desired, gap) ==> r.value == 1
  {
    if w == 0 || h == 0 then None
    else
      var innerW, innerH := w - padL - padR, h - padT - padB;
      if innerW <= 0 || innerH <= 0 then None
      else
        var maxByH := innerH;
        var maxByW := TDiv(innerW - gap, 2);
        Some(Max(Min(Min(desired, maxByH), maxByW), 1))
  }

  /** The activity object. Surfaces and the permission are inputs. */
  class MainActivity {
    var backStarted: bool
    var backStarting: bool
    var backGen: nat
    var extStarted: bool
    var extStarting: bool
    var extGen: nat
    var extBufW: int
    var extBufH: int

    function View(): MainView
      reads this
    {
      MainView(Flags(backStarted, backStarting), backGen, Flags(extStarted, extStarting), extGen, extBufW, extBufH)
    }

    constructor()
      ensures View() == InitialView
    {
      backStarted, backStarting, backGen := false, false, 0;
      extStarted, extStarting, extGen := false, false, 0;
      extBufW, extBufH := 1280, 720;
    }

    /** maybeStartBack: returns whether the start job was dispatched and the
        number its completion carries. */
    method MaybeStartBack(hasSurface: bool, hasPermission: bool) returns (dispatched: bool, ticket: nat)
      modifies this
      ensures (View(), dispatched) == BackRequested(old(View()), hasSurface, hasPermission)
      ensures ticket == backGen
    {
      ticket := backGen;
      if !hasSurface || !hasPermission {
        return false, ticket;
      }
      if backStarted || backStarting {
        return false, ticket;
      }
      backStarting := true;
      backGen := backGen + 1;
      dispatched, ticket := true, backGen;
    }

    method OnBackStartDone(ticket: nat, ok: bool)
      modifies this
      ensures View() == BackFinished(old(View()), ticket, ok)
    {
      if !backStarting || ticket != backGen {
        return;
      }
      backStarting := false;
      backStarted := ok;
    }

    /** maybeStartExt: returns whether the start job was dispatched and the
        number its completion carries. */
    method MaybeStartExt(hasSurface: bool, hasPermission: bool) returns (dispatched: bool, ticket: nat)
      modifies this
      ensures (View(), dispatched) == ExtRequested(old(View()), hasSurface, hasPermission)
      ensures ticket == extGen
    {
      ticket := extGen;
      if !hasSurface || !hasPermission {
        return false, ticket;
      }
      if extStarted || extStarting {
        return false, ticket;
      }
      extStarting := true;
      extGen := extGen + 1;
      dispatched, ticket := true, extGen;
    }

    method OnExtStartDone(ticket: nat, ok: bool, nativeMode: seq<char>)
      modifies this
      ensures View() == ExtFinished(old(View()), ticket, ok, nativeMode)
    {
      if !extStarting || ticket != extGen {
        return;
      }
      var mode := if ok then nativeMode else "";
      extStarting := false;
      extStarted := ok;
      if IsNotBlank(mode) {
        UpdateExtBufFromModeString(mode);
      }
    }

    /** stopBack: returns whether the native stop was dispatched. */
    method StopBack() returns (dispatched: bool)
      modifies this
      ensures (View().back, dispatched) == Stop(old(View()).back)
      ensures View() == old(View()).(back := View().back)
    {
      if !backStarted && !backStarting {
        return false;
      }
      backStarted, backStarting := false, false;
      dispatched := true;
    }

    /** stopExt: returns whether the native stop was dispatched. */
    method StopExt() returns (dispatched: bool)
      modifies this
      ensures (View().ext, dispatched) == Stop(old(View()).ext)
      ensures View() == old(View()).(ext := View().ext)
    {
      if !extStarted && !extStarting {
        return false;
      }
      extStarted, extStarting := false, false;
      dispatched := true;
    }

    method UpdateExtBufFromModeString(mode: seq<char>)
      modifies this
      ensures View() == UpdateFromMode(old(View()), mode)
    {
      var d := UpdatedDims(mode, extBufW, extBufH);
      extBufW, extBufH := d.0, d.1;
    }
  }
}
