/** The mode selection of setupLocked (uvc_camera.cpp): each candidate is
    tried in order, the best format the device accepted is tracked, the
    search stops early at a candidate that meets the requested rate, and the
    result is rejected when the buffer pool is too small. The device's
    answers while a candidate is tried are inputs. */
module ModeSelect {
  import opened Common
  import opened Controls
  import opened Negotiation

  /** The format VIDIOC_S_FMT hands back: the size and pixel format the
      driver settled on, which may differ from the one asked for. */
  datatype PixFormat = PixFormat(width: uint32, height: uint32, fourcc: uint32)

  /** The value-initialised `v4l2_format fmt{}`. */
  const NoFormat := PixFormat(0, 0, 0)

  /** The device's answers while one candidate is tried: the format
      VIDIOC_S_FMT returned (None when it failed), and the time-per-frame
      VIDIOC_G_PARM reported after the rate was set (None when it failed). */
  datatype TryAnswer = TryAnswer(setFmt: Option<PixFormat>, parm: Option<Fract>)

  /** The loop's variables: whether a format was accepted (ok), the best
      rate, size and pixel format so far, and `fmt`, the last format
      VIDIOC_S_FMT returned. */
  datatype Best = Best(ok: bool, gotFps: int, w: int, h: int, fourcc: uint32, lastFmt: PixFormat)

  const Start := Best(false, 0, 0, 0, 0, NoFormat)

  /** The rate asked of the device: the request, lowered to the candidate's
      best rate when that is known. */
  function TryFps(c: ModeCand, want: int): int
  {
    if c.maxFps > 0 then Min(want, c.maxFps) else want
  }

  /** The rate the device reports for a tried candidate. */
  function GotFps(c: ModeCand, a: TryAnswer, want: int): int
  {
    ReadFps(a.parm, TryFps(c, want))
  }

  /** Close enough to the requested rate: at most 2 below it. */
  predicate Meets(got: int, want: int)
  {
    got >= want - 2
  }

  /** The replacement rule: nothing accepted yet; or the first to reach the
      rate; or as close to the rate as the best and larger; or as large as
      the best and faster. */
  predicate Improves(b: Best, got: int, fmt: PixFormat, want: int)
  {
    !b.ok
    || (Meets(got, want) && !Meets(b.gotFps, want))
    || (Meets(got, want) == Meets(b.gotFps, want) && fmt.width * fmt.height > b.w * b.h)
    || (fmt.width * fmt.height == b.w * b.h && got > b.gotFps)
  }

  /** The loop from state `b` over the remaining candidates. */
  function Run(b: Best, cands: seq<ModeCand>, answers: seq<TryAnswer>, want: int): Best
    requires |answers| == |cands|
    decreases |cands|
  {
    if |cands| == 0 then b
    else
      match answers[0].setFmt
      case None => Run(b, cands[1..], answers[1..], want)
      case Some(fmt) =>
        var got := GotFps(cands[0], answers[0], want);
        var b1 := b.(lastFmt := fmt);
        if Improves(b, got, fmt, want) then
          var b2 := b1.(ok := true, gotFps := got, w := AsInt32(fmt.width), h := AsInt32(fmt.height), fourcc := fmt.fourcc);
          if Meets(got, want) && cands[0].scoreMeet == 1 then b2
          else Run(b2, cands[1..], answers[1..], want)
        else Run(b1, cands[1..], answers[1..], want)
  }

  /** The candidate loop of setupLocked. */
  method SelectMode(cands: seq<ModeCand>, answers: seq<TryAnswer>, want: int) returns (b: Best)
    requires |answers| == |cands|
    ensures b == Run(Start, cands, answers, want)
  {
    b := Start;
    var i := 0;
    while i < |cands|
      invariant 0 <= i <= |cands|
      invariant Run(b, cands[i..], answers[i..], want) == Run(Start, cands, answers, want)
    {
      var c := cands[i];
      match answers[i].setFmt {
        case None =>
        case Some(fmt) =>
          var got := ReadFps(answers[i].parm, TryFps(c, want));
          var better := Improves(b, got, fmt, want);
          b := b.(lastFmt := fmt);
          if better {
            b := b.(ok := true, gotFps := got, w := AsInt32(fmt.width), h := AsInt32(fmt.height), fourcc := fmt.fourcc);
            if b.gotFps >= want - 2 && c.scoreMeet == 1 {
              break;
            }
          }
      }
      i := i + 1;
    }
  }

  /** Some trial was accepted by the device. */
  predicate Accepted(answers: seq<TryAnswer>)
  {
    exists i :: 0 <= i < |answers| && answers[i].setFmt.Some?
  }

  /** Some accepted trial reports a rate that meets the request. */
  predicate AcceptedMeeting(cands: seq<ModeCand>, answers: seq<TryAnswer>, want: int)
    requires |answers| == |cands|
  {
    exists i :: 0 <= i < |answers| && answers[i].setFmt.Some? && Meets(GotFps(cands[i], answers[i], want), want)
  }

  /** The chosen size, pixel format and rate are those of the trial at `i`. */
  predicate ChoseTrial(r: Best, cands: seq<ModeCand>, answers: seq<TryAnswer>, want: int, i: int)
    requires |answers| == |cands|
  {
    0 <= i < |answers| && answers[i].setFmt.Some?
    && r.w == AsInt32(answers[i].setFmt.value.width) && r.h == AsInt32(answers[i].setFmt.value.height)
    && r.fourcc == answers[i].setFmt.value.fourcc && r.gotFps == GotFps(cands[i], answers[i], want)
  }

  predicate SameChoice(r: Best, b: Best)
  {
    r.ok == b.ok && r.gotFps == b.gotFps && r.w == b.w && r.h == b.h && r.fourcc == b.fourcc
  }

  /** A format is chosen exactly when some trial was accepted (or one was
      chosen already), and the choice is that of an accepted trial. */
  lemma {:induction false} RunChoosesAccepted(b: Best, cands: seq<ModeCand>, answers: seq<TryAnswer>, want: int)
    requires |answers| == |cands|
    ensures Run(b, cands, answers, want).ok <==> b.ok || Accepted(answers)
    ensures var r := Run(b, cands, answers, want);
            r.ok ==> SameChoice(r, b) || exists i :: ChoseTrial(r, cands, answers, want, i)
    decreases |cands|
  {
    if |cands| > 0 {
      var rc, ra := cands[1..], answers[1..];
      var r := Run(b, cands, answers, want);
      assert Accepted(answers) <==> answers[0].setFmt.Some? || Accepted(ra) by {
        if Accepted(ra) {
          var i :| 0 <= i < |ra| && ra[i].setFmt.Some?;
          assert answers[i + 1] == ra[i];
        }
        if Accepted(answers) && answers[0].setFmt.None? {
          var i :| 0 <= i < |answers| && answers[i].setFmt.Some?;
          assert ra[i - 1] == answers[i];
        }
      }
      match answers[0].setFmt
      case None =>
        RunChoosesAccepted(b, rc, ra, want);
        ShiftChoice(r, cands, answers, want);
      case Some(fmt) =>
        var got := GotFps(cands[0], answers[0], want);
        var b1 := b.(lastFmt := fmt);
        if Improves(b, got, fmt, want) {
          var b2 := b1.(ok := true, gotFps := got, w := AsInt32(fmt.width), h := AsInt32(fmt.height), fourcc := fmt.fourcc);
          assert ChoseTrial(b2, cands, answers, want, 0);
          if !(Meets(got, want) && cands[0].scoreMeet == 1) {
            RunChoosesAccepted(b2, rc, ra, want);
            ShiftChoice(r, cands, answers, want);
            assert SameChoice(r, b2) ==> ChoseTrial(r, cands, answers, want, 0);
          }
        } else {
          RunChoosesAccepted(b1, rc, ra, want);
          ShiftChoice(r, cands, answers, want);
        }
    }
  }

  /** A choice among the later trials is a choice among all of them. */
  lemma ShiftChoice(r: Best, cands: seq<ModeCand>, answers: seq<TryAnswer>, want: int)
    requires |answers| == |cands| > 0
    ensures (exists i :: ChoseTrial(r, cands[1..], answers[1..], want, i)) ==> exists i :: ChoseTrial(r, cands, answers, want, i)
  {
    if exists i :: ChoseTrial(r, cands[1..], answers[1..], want, i) {
      var i :| ChoseTrial(r, cands[1..], answers[1..], want, i);
      assert cands[i + 1] == cands[1..][i] && answers[i + 1] == answers[1..][i];
      assert ChoseTrial(r, cands, answers, want, i + 1);
    }
  }

  /** Once the best rate meets the request it keeps meeting it, and an
      accepted trial that meets the request always displaces a best that
      does not: the result meets the request exactly when some accepted
      trial does (or the starting best did). */
  lemma {:induction false} RunMeetsIff(b: Best, cands: seq<ModeCand>, answers: seq<TryAnswer>, want: int)
    requires |answers| == |cands|
    ensures var r := Run(b, cands, answers, want);
            (r.ok && Meets(r.gotFps, want)) <==> (b.ok && Meets(b.gotFps, want)) || AcceptedMeeting(cands, answers, want)
    decreases |cands|
  {
    if |cands| > 0 {
      var rc, ra := cands[1..], answers[1..];
      assert AcceptedMeeting(cands, answers, want) <==>
             (answers[0].setFmt.Some? && Meets(GotFps(cands[0], answers[0], want), want)) || AcceptedMeeting(rc, ra, want) by {
        if AcceptedMeeting(rc, ra, want) {
          var i :| 0 <= i < |ra| && ra[i].setFmt.Some? && Meets(GotFps(rc[i], ra[i], want), want);
          assert answers[i + 1] == ra[i] && cands[i + 1] == rc[i];
        }
        if AcceptedMeeting(cands, answers, want) && !(answers[0].setFmt.Some? && Meets(GotFps(cands[0], answers[0], want), want)) {
          var i :| 0 <= i < |answers| && answers[i].setFmt.Some? && Meets(GotFps(cands[i], answers[i], want), want);
          assert ra[i - 1] == answers[i] && rc[i - 1] == cands[i];
        }
      }
      match answers[0].setFmt
      case None =>
        RunMeetsIff(b, rc, ra, want);
      case Some(fmt) =>
        var got := GotFps(cands[0], answers[0], want);
        var b1 := b.(lastFmt := fmt);
        if Improves(b, got, fmt, want) {
          var b2 := b1.(ok := true, gotFps := got, w := AsInt32(fmt.width), h := AsInt32(fmt.height), fourcc := fmt.fourcc);
          if !(Meets(got, want) && cands[0].scoreMeet == 1) {
            RunMeetsIff(b2, rc, ra, want);
          }
        } else {
          RunMeetsIff(b1, rc, ra, want);
        }
    }
  }

  /** Whenever some trial was accepted, the last format VIDIOC_S_FMT handed
      back is that of an accepted trial (the loop never stops before its
      first accepted trial); otherwise it is the one the loop started with. */
  lemma {:induction false} RunLastFmt(b: Best, cands: seq<ModeCand>, answers: seq<TryAnswer>, want: int)
    requires |answers| == |cands|
    ensures Accepted(answers) ==>
      exists i :: 0 <= i < |answers| && answers[i].setFmt == Some(Run(b, cands, answers, want).lastFmt)
    ensures !Accepted(answers) ==> Run(b, cands, answers, want).lastFmt == b.lastFmt
    decreases |cands|
  {
    if |cands| > 0 {
      var rc, ra := cands[1..], answers[1..];
      var r := Run(b, cands, answers, want);
      assert forall i :: 0 <= i < |ra| ==> ra[i] == answers[i + 1];
      assert Accepted(ra) ==> Accepted(answers) by {
        if Accepted(ra) {
          var i :| 0 <= i < |ra| && ra[i].setFmt.Some?;
          assert answers[i + 1].setFmt.Some?;
        }
      }
      assert !Accepted(answers) ==> answers[0].setFmt.None?;
      match answers[0].setFmt
      case None =>
        assert Accepted(answers) ==> Accepted(ra) by {
          if Accepted(answers) {
            var i :| 0 <= i < |answers| && answers[i].setFmt.Some?;
            assert ra[i - 1] == answers[i];
          }
        }
        RunLastFmt(b, rc, ra, want);
        if Accepted(answers) {
          var i :| 0 <= i < |ra| && ra[i].setFmt == Some(r.lastFmt);
          assert answers[i + 1].setFmt == Some(r.lastFmt);
        }
      case Some(fmt) =>
        var got := GotFps(cands[0], answers[0], want);
        var b1 := b.(lastFmt := fmt);
        var next := if Improves(b, got, fmt, want)
                    then b1.(ok := true, gotFps := got, w := AsInt32(fmt.width), h := AsInt32(fmt.height), fourcc := fmt.fourcc)
                    else b1;
        if Improves(b, got, fmt, want) && Meets(got, want) && cands[0].scoreMeet == 1 {
          assert r.lastFmt == fmt;
        } else {
          assert r == Run(next, rc, ra, want);
          RunLastFmt(next, rc, ra, want);
          if Accepted(ra) {
            var i :| 0 <= i < |ra| && ra[i].setFmt == Some(r.lastFmt);
            assert answers[i + 1].setFmt == Some(r.lastFmt);
          } else {
            assert answers[0].setFmt == Some(r.lastFmt);
          }
        }
    }
  }

  datatype SetupError = OpenFailed | NoCandidateWorked | ReqBufsFailed | StreamingFailed

  /** The outcome of a successful setup: the format left on the device, the
      rate published as gChosenFps, and the number of buffers granted. */
  datatype Negotiated = Negotiated(fmt: PixFormat, chosenFps: int, buffers: int)

  /** The selection part of setupLocked. `nodeFd` is what openBestNode
      returned; `cands` the candidate list for the effective rate and
      `answers` the device's answers for each; `reset` the answer of the
      final VIDIOC_S_FMT for the best size (None when it fails, which leaves
      the last accepted format in place); `reqOk`/`reqCount` the answer of
      VIDIOC_REQBUFS; `streamOk` whether QUERYBUF, mmap, QBUF and STREAMON
      all succeeded. */
  function Setup(nodeFd: int, desiredFps: int, cands: seq<ModeCand>, answers: seq<TryAnswer>,
                 reset: Option<PixFormat>, reqOk: bool, reqCount: uint32, streamOk: bool): (r: Result<Negotiated, SetupError>)
    requires |answers| == |cands|
    ensures r == Err(OpenFailed) <==> nodeFd < 0
    ensures r == Err(NoCandidateWorked) <==> nodeFd >= 0 && !Accepted(answers)
    ensures nodeFd >= 0 && Accepted(answers) && (!reqOk || reqCount < 4) ==> r == Err(ReqBufsFailed)
    ensures r.Ok? ==> r.value.buffers >= 4 && r.value.chosenFps > 0
    ensures r.Ok? && reset.Some? ==> r.value.fmt == reset.value
    ensures r.Ok? && reset.None? ==> exists i :: 0 <= i < |answers| && answers[i].setFmt == Some(r.value.fmt)
    ensures r.Ok? ==> var want := if desiredFps > 0 then desiredFps else 60;
                      r.value.chosenFps == want
                      || exists i :: 0 <= i < |cands| && answers[i].setFmt.Some? && r.value.chosenFps == GotFps(cands[i], answers[i], want)
  {
    if nodeFd < 0 then Err(OpenFailed)
    else
      var want := if desiredFps > 0 then desiredFps else 60;
      var b := Run(Start, cands, answers, want);
      RunChoosesAccepted(Start, cands, answers, want);
      RunLastFmt(Start, cands, answers, want);
      if !b.ok then Err(NoCandidateWorked)
      else
        var fmt := match reset case Some(f) => f case None => b.lastFmt;
        var fps := if b.gotFps > 0 then b.gotFps else want;
        if !reqOk || reqCount < 4 then Err(ReqBufsFailed)
        else if !streamOk then Err(StreamingFailed)
        else Ok(Negotiated(fmt, fps, reqCount))
  }

  /** When some accepted trial reported a rate that meets the request, the
      published rate meets it too. */
  lemma SetupMeets(nodeFd: int, desiredFps: int, cands: seq<ModeCand>, answers: seq<TryAnswer>,
                   reset: Option<PixFormat>, reqOk: bool, reqCount: uint32, streamOk: bool)
    requires |answers| == |cands|
    requires Setup(nodeFd, desiredFps, cands, answers, reset, reqOk, reqCount, streamOk).Ok?
    ensures var want := if desiredFps > 0 then desiredFps else 60;
            AcceptedMeeting(cands, answers, want) ==>
              Meets(Setup(nodeFd, desiredFps, cands, answers, reset, reqOk, reqCount, streamOk).value.chosenFps, want)
  {
    var want := if desiredFps > 0 then desiredFps else 60;
    RunMeetsIff(Start, cands, answers, want);
  }

  /** When the final VIDIOC_S_FMT for the best size fails, the format left in
      place is the last accepted trial's, which need not be the chosen one:
      here 1920 x 1080 MJPEG is chosen, but the 640 x 480 YUYV trial came
      later, so its format is what setup publishes. */
  lemma FailedResetKeepsLastTrial()
    ensures var cands := [ModeCand(1920, 1080, FourccMjpeg, 30, 0), ModeCand(640, 480, FourccYuyv, 30, 0)];
      var answers := [TryAnswer(Some(PixFormat(1920, 1080, FourccMjpeg)), Some(Fract(1, 30))),
                      TryAnswer(Some(PixFormat(640, 480, FourccYuyv)), Some(Fract(1, 30)))];
      var b := Run(Start, cands, answers, 60);
      b.fourcc == FourccMjpeg && b.w == 1920 && b.h == 1080
      && Setup(3, 60, cands, answers, None, true, 4, true) == Ok(Negotiated(PixFormat(640, 480, FourccYuyv), 30, 4))
  {
    var cands := [ModeCand(1920, 1080, FourccMjpeg, 30, 0), ModeCand(640, 480, FourccYuyv, 30, 0)];
    var answers := [TryAnswer(Some(PixFormat(1920, 1080, FourccMjpeg)), Some(Fract(1, 30))),
                    TryAnswer(Some(PixFormat(640, 480, FourccYuyv)), Some(Fract(1, 30)))];
    assert GotFps(cands[0], answers[0], 60) == 30;
    assert GotFps(cands[1], answers[1], 60) == 30;
    var b1 := Best(true, 30, 1920, 1080, FourccMjpeg, PixFormat(1920, 1080, FourccMjpeg));
    assert Run(Start, cands, answers, 60) == Run(b1, cands[1..], answers[1..], 60);
    assert Run(b1, cands[1..], answers[1..], 60) == b1.(lastFmt := PixFormat(640, 480, FourccYuyv));
  }
}
