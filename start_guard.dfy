/** The start/stop guard the Kotlin controllers keep around each native
    camera (UvcAction.kt maybeStartExt/stopExt, MainActivity.kt
    maybeStartBack/maybeStartExt/stopBack/stopExt): a `started` and a
    `starting` flag, read and written on the UI thread, with the native
    start and stop calls run in order on a single-thread executor and the
    start's completion posted back to the UI thread. */
module StartGuard {

  datatype Flags = Flags(started: bool, starting: bool)

  const Idle: Flags := Flags(false, false)

  /** maybeStart: nothing without a surface or permission, or while started
      or starting; otherwise set starting and dispatch the native start
      (the second component). */
  function TryStart(f: Flags, hasSurface: bool, hasPermission: bool): (Flags, bool)
  {
    if !hasSurface || !hasPermission || f.started || f.starting then (f, false)
    else (Flags(f.started, true), true)
  }

  /** The start's completion on the UI thread: starting cleared, started
      set to the native result. */
  function Complete(f: Flags, ok: bool): Flags
  {
    Flags(ok, false)
  }

  /** stop: nothing when neither flag is set; otherwise clear both and
      dispatch the native stop (the second component). */
  function Stop(f: Flags): (Flags, bool)
  {
    if !f.started && !f.starting then (f, false) else (Idle, true)
  }

  /** A start is dispatched exactly when there is a surface and permission
      and the camera is neither started nor starting, and once dispatched no
      further start is dispatched until its completion or a stop. */
  lemma NoSecondStart(f: Flags, hasSurface: bool, hasPermission: bool, s2: bool, p2: bool)
    ensures TryStart(f, hasSurface, hasPermission).1 <==> hasSurface && hasPermission && !f.started && !f.starting
    ensures !TryStart(f, hasSurface, hasPermission).1 ==> TryStart(f, hasSurface, hasPermission).0 == f
    ensures TryStart(f, hasSurface, hasPermission).1 ==> TryStart(f, hasSurface, hasPermission).0 == Flags(false, true)
    ensures TryStart(f, hasSurface, hasPermission).1 ==> !TryStart(TryStart(f, hasSurface, hasPermission).0, s2, p2).1
  {
  }

  /** stop is a no-op exactly on idle flags, always leaves them idle, and a
      second stop does nothing: stopping twice is stopping once. */
  lemma StopIdempotent(f: Flags)
    ensures Stop(f).1 <==> f != Idle
    ensures Stop(f).0 == Idle
    ensures Stop(Stop(f).0) == (Idle, false)
  {
  }

  // ---------------------------------------------------------------------
  // The guard over time
  // ---------------------------------------------------------------------

  /** The last native operation queued on the executor. */
  datatype NativeOp = NoNativeOp | NativeStart(gen: nat) | NativeStop

  /** The UI-thread state: the flags, the number of starts dispatched so
      far, the last queued native operation, and which start's completion
      set the flags last. */
  datatype Guard = Guard(flags: Flags, gen: nat, lastQueued: NativeOp, confirmed: nat)

  const Initial: Guard := Guard(Idle, 0, NoNativeOp, 0)

  /** What happens on the UI thread: a maybeStart call, a stop call, or
      the completion of start number `gen` with its native result. */
  datatype UiEvent = Request(hasSurface: bool, hasPermission: bool) | StopRequest | StartDone(gen: nat, ok: bool)

  function RequestStep(g: Guard, hasSurface: bool, hasPermission: bool): Guard
  {
    var (f, dispatched) := TryStart(g.flags, hasSurface, hasPermission);
    if dispatched then Guard(f, g.gen + 1, NativeStart(g.gen + 1), g.confirmed) else g
  }

  function StopStep(g: Guard): Guard
  {
    var (f, dispatched) := Stop(g.flags);
    Guard(f, g.gen, if dispatched then NativeStop else g.lastQueued, g.confirmed)
  }

  /** The controllers as written: every completion sets the flags. */
  function StepAsWritten(g: Guard, e: UiEvent): Guard
  {
    match e
    case Request(s, p) => RequestStep(g, s, p)
    case StopRequest => StopStep(g)
    case StartDone(n, ok) => Guard(Complete(g.flags, ok), g.gen, g.lastQueued, n)
  }

  /** The evident intent: the completion of start number n counts only when
      it is the latest start (gen starts dispatched so far) and that start is
      still pending, so a stop in between wins. */
  predicate IsCurrent(f: Flags, gen: nat, n: nat)
  {
    f.starting && n == gen
  }

  function StepCorrected(g: Guard, e: UiEvent): Guard
  {
    match e
    case Request(s, p) => RequestStep(g, s, p)
    case StopRequest => StopStep(g)
    case StartDone(n, ok) =>
      if IsCurrent(g.flags, g.gen, n) then Guard(Complete(g.flags, ok), g.gen, g.lastQueued, n) else g
  }

  /** The flags agree with the executor: while starting, the latest start
      is the last thing queued; while started, the start whose success set
      the flag is the last thing queued, so no stop is pending after it. */
  predicate Consistent(g: Guard)
  {
    (g.flags.starting ==> g.lastQueued == NativeStart(g.gen))
    && (g.flags.started ==> g.lastQueued == NativeStart(g.confirmed))
  }

  function ReplayAsWritten(es: seq<UiEvent>): Guard
  {
    if |es| == 0 then Initial else StepAsWritten(ReplayAsWritten(es[..|es| - 1]), es[|es| - 1])
  }

  function ReplayCorrected(es: seq<UiEvent>): Guard
  {
    if |es| == 0 then Initial else StepCorrected(ReplayCorrected(es[..|es| - 1]), es[|es| - 1])
  }

  /** As written: start, stop while the start is in flight, then the start
      reports success. The stop ran on the executor after the start, yet the
      flags say started, and the next maybeStart is refused, so the camera
      stays off until something stops it again. */
  lemma AsWrittenStopLost()
    ensures var g := ReplayAsWritten([Request(true, true), StopRequest, StartDone(1, true)]);
      g.flags.started && g.lastQueued == NativeStop && !Consistent(g)
      && RequestStep(g, true, true) == g
  {
    var es := [Request(true, true), StopRequest, StartDone(1, true)];
    assert es[..2][..1] == [Request(true, true)] && es[..2] == [Request(true, true), StopRequest];
    assert ReplayAsWritten(es[..2][..1]) == Guard(Flags(false, true), 1, NativeStart(1), 0);
  }

  /** Corrected: every event keeps the flags consistent with the executor. */
  lemma CorrectedStepConsistent(g: Guard, e: UiEvent)
    requires Consistent(g)
    ensures Consistent(StepCorrected(g, e))
  {
  }

  lemma {:induction false} CorrectedAlwaysConsistent(es: seq<UiEvent>)
    ensures Consistent(ReplayCorrected(es))
  {
    if |es| > 0 {
      CorrectedAlwaysConsistent(es[..|es| - 1]);
      CorrectedStepConsistent(ReplayCorrected(es[..|es| - 1]), es[|es| - 1]);
    }
  }

  /** The corrected guard still never dispatches a second start while
      started or starting, and a stop during a pending start is kept. */
  lemma CorrectedKeepsStop(g: Guard, ok: bool)
    requires Consistent(g) && g.flags.starting
    ensures var s := StepCorrected(StepCorrected(g, StopRequest), StartDone(g.gen, ok));
      !s.flags.started && !s.flags.starting && s.lastQueued == NativeStop
  {
  }
}
