/** The back-camera driver's selection logic (back_camera.cpp): reading the
    advertised AE target fps ranges, the four-tier choice of one of them,
    the writes it makes, the camera id it opens, and the 60 fps gate of
    start. Camera2 calls are inputs: the metadata list (absent when
    characteristics or the entry cannot be read), whether the first range
    write succeeds, and the per-id back-facing answers. */
module BackCamera {
  import opened Common

  /** kMinFps. */
  const MinFps: int := 60

  datatype FpsRange = FpsRange(lo: int, hi: int)

  /** The effective target: max(kMinFps, desiredFps). */
  function Want(desiredFps: int): (w: int)
    ensures w >= MinFps && w >= desiredFps && (w == MinFps || w == desiredFps)
  {
    Max(MinFps, desiredFps)
  }

  // ---------------------------------------------------------------------
  // Reading the ranges
  // ---------------------------------------------------------------------

  /** The flat metadata list read as consecutive (min, max) pairs. */
  function Pairs(data: seq<int>): seq<FpsRange>
    decreases |data|
  {
    if |data| < 2 then [] else [FpsRange(data[0], data[1])] + Pairs(data[2..])
  }

  /** Pair k is elements 2k and 2k + 1; a trailing odd element is dropped. */
  lemma {:induction false} PairsLayout(data: seq<int>)
    ensures |Pairs(data)| == |data| / 2
    ensures forall k :: 0 <= k < |Pairs(data)| ==> Pairs(data)[k] == FpsRange(data[2 * k], data[2 * k + 1])
    decreases |data|
  {
    if |data| >= 2 {
      PairsLayout(data[2..]);
      forall k | 1 <= k < |Pairs(data)|
        ensures Pairs(data)[k] == FpsRange(data[2 * k], data[2 * k + 1])
      {
        assert Pairs(data)[k] == Pairs(data[2..])[k - 1];
        assert data[2..][2 * (k - 1)] == data[2 * k];
        assert data[2..][2 * (k - 1) + 1] == data[2 * k + 1];
      }
    }
  }

  /** The reading loop (back_camera.cpp 273-278). */
  method ReadRanges(meta: Option<seq<int>>) returns (ranges: seq<FpsRange>)
    ensures ranges == if meta.Some? then Pairs(meta.value) else []
  {
    ranges := [];
    if meta.None? || |meta.value| < 2 {
      return;
    }
    var data := meta.value;
    var i := 0;
    while i + 1 < |data|
      invariant 0 <= i <= |data|
      invariant ranges + Pairs(data[i..]) == Pairs(data)
      decreases |data| - i
    {
      assert data[i..][2..] == data[i + 2..];
      ranges := ranges + [FpsRange(data[i], data[i + 1])];
      i := i + 2;
    }
  }

  // ---------------------------------------------------------------------
  // The four tiers, each as the index it settles on
  // ---------------------------------------------------------------------

  /** Tier 1: the exact range (want, want). */
  predicate HasExact(rs: seq<FpsRange>, want: int)
  {
    exists i :: 0 <= i < |rs| && rs[i] == FpsRange(want, want)
  }

  /** Tier 2's candidates: ranges ending at want; the scan starts from a
      best min of -1 and only moves on a strictly larger min. */
  predicate EndsAtWant(r: FpsRange, want: int)
  {
    r.hi == want && 0 <= r.lo <= want
  }

  function Tier2(rs: seq<FpsRange>, want: int): (t: int)
    ensures -1 <= t < |rs|
    ensures t >= 0 ==> EndsAtWant(rs[t], want)
    ensures t >= 0 ==> forall j :: 0 <= j < |rs| && EndsAtWant(rs[j], want) ==> rs[j].lo <= rs[t].lo
    ensures t >= 0 ==> forall j :: 0 <= j < t && EndsAtWant(rs[j], want) ==> rs[j].lo < rs[t].lo
    ensures t == -1 ==> forall j :: 0 <= j < |rs| ==> !EndsAtWant(rs[j], want)
  {
    if |rs| == 0 then -1
    else
      var p := Tier2(rs[..|rs| - 1], want);
      var r := rs[|rs| - 1];
      if r.hi == want && r.lo <= want && r.lo > (if p >= 0 then rs[p].lo else -1) then |rs| - 1 else p
  }

  /** Tier 3's candidates: ranges containing want. */
  predicate ContainsWant(r: FpsRange, want: int)
  {
    r.lo <= want <= r.hi
  }

  function Tier3(rs: seq<FpsRange>, want: int): (t: int)
    requires want > 0
    ensures -1 <= t < |rs|
    ensures t >= 0 ==> ContainsWant(rs[t], want)
    ensures t >= 0 ==> forall j :: 0 <= j < |rs| && ContainsWant(rs[j], want) ==> rs[t].hi <= rs[j].hi
    ensures t >= 0 ==> forall j :: 0 <= j < t && ContainsWant(rs[j], want) ==> rs[t].hi < rs[j].hi
    ensures t == -1 ==> forall j :: 0 <= j < |rs| ==> !ContainsWant(rs[j], want)
  {
    if |rs| == 0 then -1
    else
      var p := Tier3(rs[..|rs| - 1], want);
      var r := rs[|rs| - 1];
      var bestMax := if p >= 0 then rs[p].hi else 0;
      if r.lo <= want && r.hi >= want && (bestMax == 0 || r.hi < bestMax) then |rs| - 1 else p
  }

  /** Tier 4: the range with the largest positive max. */
  function Tier4(rs: seq<FpsRange>): (t: int)
    ensures -1 <= t < |rs|
    ensures t >= 0 ==> rs[t].hi > 0
    ensures t >= 0 ==> forall j :: 0 <= j < |rs| ==> rs[j].hi <= rs[t].hi
    ensures t >= 0 ==> forall j :: 0 <= j < t ==> rs[j].hi < rs[t].hi
    ensures t == -1 ==> forall j :: 0 <= j < |rs| ==> rs[j].hi <= 0
  {
    if |rs| == 0 then -1
    else
      var p := Tier4(rs[..|rs| - 1]);
      var r := rs[|rs| - 1];
      if r.hi > (if p >= 0 then rs[p].hi else 0) then |rs| - 1 else p
  }

  /** The (chosenMin, chosenMax) the tiers settle on; (0, 0) when no range
      has a positive max. */
  function ChooseRange(rs: seq<FpsRange>, want: int): FpsRange
    requires want > 0
  {
    if HasExact(rs, want) then FpsRange(want, want)
    else if Tier2(rs, want) >= 0 then FpsRange(rs[Tier2(rs, want)].lo, want)
    else if Tier3(rs, want) >= 0 then rs[Tier3(rs, want)]
    else if Tier4(rs) >= 0 then rs[Tier4(rs)]
    else FpsRange(0, 0)
  }

  /** The choice is one of the advertised ranges, or (0, 0) exactly when no
      range has a positive max; a range ending at want is preferred to one
      merely containing it, and either to one not reaching it. */
  lemma ChooseRangeIsAdvertised(rs: seq<FpsRange>, want: int)
    requires want > 0
    ensures ChooseRange(rs, want) == FpsRange(0, 0) || ChooseRange(rs, want) in rs
    ensures ChooseRange(rs, want).hi > 0 <==> exists j :: 0 <= j < |rs| && rs[j].hi > 0
    ensures (exists j :: 0 <= j < |rs| && EndsAtWant(rs[j], want)) ==> ChooseRange(rs, want).hi == want
    ensures (exists j :: 0 <= j < |rs| && ContainsWant(rs[j], want)) ==> ChooseRange(rs, want).hi >= want
  {
    if HasExact(rs, want) {
      var i :| 0 <= i < |rs| && rs[i] == FpsRange(want, want);
      assert rs[i] in rs;
    } else if Tier2(rs, want) >= 0 {
      var t := Tier2(rs, want);
      assert rs[t] == FpsRange(rs[t].lo, want) && rs[t] in rs;
    } else if Tier3(rs, want) >= 0 {
      assert rs[Tier3(rs, want)] in rs;
    } else if Tier4(rs) >= 0 {
      assert rs[Tier4(rs)] in rs;
    }
  }

  // ---------------------------------------------------------------------
  // The four loops
  // ---------------------------------------------------------------------

  method ExactLoop(rs: seq<FpsRange>, want: int) returns (chosenMin: int, chosenMax: int)
    ensures HasExact(rs, want) ==> chosenMin == want && chosenMax == want
    ensures !HasExact(rs, want) ==> chosenMin == 0 && chosenMax == 0
  {
    chosenMin, chosenMax := 0, 0;
    var i := 0;
    while i < |rs|
      invariant 0 <= i <= |rs|
      invariant forall j :: 0 <= j < i ==> rs[j] != FpsRange(want, want)
    {
      if rs[i].lo == want && rs[i].hi == want {
        chosenMin, chosenMax := want, want;
        break;
      }
      i := i + 1;
    }
  }

  method EndsAtWantLoop(rs: seq<FpsRange>, want: int) returns (chosenMin: int, chosenMax: int)
    ensures Tier2(rs, want) >= 0 ==> chosenMin == rs[Tier2(rs, want)].lo && chosenMax == want
    ensures Tier2(rs, want) == -1 ==> chosenMin == 0 && chosenMax == 0
  {
    chosenMin, chosenMax := 0, 0;
    var bestMn := -1;
    var i := 0;
    while i < |rs|
      invariant 0 <= i <= |rs|
      invariant var t := Tier2(rs[..i], want);
        bestMn == (if t >= 0 then rs[t].lo else -1)
        && (t >= 0 ==> chosenMin == rs[t].lo && chosenMax == want)
        && (t == -1 ==> chosenMin == 0 && chosenMax == 0)
    {
      assert rs[..i + 1][..i] == rs[..i];
      var r := rs[i];
      if r.hi == want && r.lo <= want {
        if r.lo > bestMn {
          bestMn := r.lo;
          chosenMin, chosenMax := r.lo, want;
        }
      }
      i := i + 1;
    }
    assert rs[..i] == rs;
  }

  method ContainsWantLoop(rs: seq<FpsRange>, want: int) returns (chosenMin: int, chosenMax: int)
    requires want > 0
    ensures Tier3(rs, want) >= 0 ==> FpsRange(chosenMin, chosenMax) == rs[Tier3(rs, want)]
    ensures Tier3(rs, want) == -1 ==> chosenMin == 0 && chosenMax == 0
  {
    chosenMin, chosenMax := 0, 0;
    var bestMax, bestMin := 0, 0;
    var i := 0;
    while i < |rs|
      invariant 0 <= i <= |rs|
      invariant var t := Tier3(rs[..i], want);
        (t >= 0 ==> FpsRange(bestMin, bestMax) == rs[t] && bestMax > 0)
        && (t == -1 ==> bestMax == 0)
    {
      assert rs[..i + 1][..i] == rs[..i];
      var r := rs[i];
      if r.lo <= want && r.hi >= want {
        if bestMax == 0 || r.hi < bestMax {
          bestMax, bestMin := r.hi, r.lo;
        }
      }
      i := i + 1;
    }
    assert rs[..i] == rs;
    if bestMax != 0 {
      chosenMin, chosenMax := bestMin, bestMax;
    }
  }

  method HighestMaxLoop(rs: seq<FpsRange>) returns (chosenMin: int, chosenMax: int)
    ensures Tier4(rs) >= 0 ==> FpsRange(chosenMin, chosenMax) == rs[Tier4(rs)]
    ensures Tier4(rs) == -1 ==> chosenMin == 0 && chosenMax == 0
  {
    var bestMax, bestMin := 0, 0;
    var i := 0;
    while i < |rs|
      invariant 0 <= i <= |rs|
      invariant var t := Tier4(rs[..i]);
        (t >= 0 ==> FpsRange(bestMin, bestMax) == rs[t])
        && (t == -1 ==> bestMin == 0 && bestMax == 0)
    {
      assert rs[..i + 1][..i] == rs[..i];
      var r := rs[i];
      if r.hi > bestMax {
        bestMax, bestMin := r.hi, r.lo;
      }
      i := i + 1;
    }
    assert rs[..i] == rs;
    chosenMin, chosenMax := bestMin, bestMax;
  }

  // ---------------------------------------------------------------------
  // chooseAndApplyFpsRangeLocked
  // ---------------------------------------------------------------------

  /** What a call yields: gChosenFps and the ranges it asked Camera2 to set,
      in order. */
  datatype Applied = Applied(chosenFps: int, requested: seq<FpsRange>)

  function ApplyRanges(meta: Option<seq<int>>, desiredFps: int, firstSetOk: bool): Applied
  {
    var rs := if meta.Some? then Pairs(meta.value) else [];
    var want := Want(desiredFps);
    var c := ChooseRange(rs, want);
    if |rs| == 0 || c.hi <= 0 then Applied(0, [])
    else if !firstSetOk then Applied(0, [c])
    else if c != FpsRange(want, want) && c.hi >= want then Applied(want, [c, FpsRange(want, want)])
    else Applied(want, [c])
  }

  /** The four loops in sequence, each run only while nothing is chosen. */
  method ChooseRangeLoops(rs: seq<FpsRange>, want: int) returns (chosenMin: int, chosenMax: int)
    requires want > 0
    ensures FpsRange(chosenMin, chosenMax) == ChooseRange(rs, want)
  {
    chosenMin, chosenMax := ExactLoop(rs, want);
    if chosenMax == 0 {
      chosenMin, chosenMax := EndsAtWantLoop(rs, want);
    }
    if chosenMax == 0 {
      chosenMin, chosenMax := ContainsWantLoop(rs, want);
    }
    if chosenMax == 0 {
      chosenMin, chosenMax := HighestMaxLoop(rs);
    }
  }

  method ChooseAndApplyFpsRange(meta: Option<seq<int>>, desiredFps: int, firstSetOk: bool)
    returns (chosenFps: int, requested: seq<FpsRange>)
    ensures Applied(chosenFps, requested) == ApplyRanges(meta, desiredFps, firstSetOk)
  {
    chosenFps, requested := 0, [];
    var ranges := ReadRanges(meta);
    if |ranges| == 0 {
      return;
    }
    var want := Max(MinFps, desiredFps);
    var chosenMin, chosenMax := ChooseRangeLoops(ranges, want);
    if chosenMax > 0 {
      requested := requested + [FpsRange(chosenMin, chosenMax)];
      if !firstSetOk {
        return;
      }
      if !(chosenMin == want && chosenMax == want) && chosenMax >= want {
        requested := requested + [FpsRange(want, want)];
      }
      chosenFps := want;
    }
  }

  /** gChosenFps is 0 or want, and want exactly when some advertised range
      has a positive max and the first write succeeded; a fixed want range
      is forced after any other choice that reaches want. */
  lemma ChosenFpsZeroOrWant(meta: Option<seq<int>>, desiredFps: int, firstSetOk: bool)
    ensures var a := ApplyRanges(meta, desiredFps, firstSetOk);
      var rs := if meta.Some? then Pairs(meta.value) else [];
      (a.chosenFps == 0 || a.chosenFps == Want(desiredFps))
      && (a.chosenFps == Want(desiredFps) <==> firstSetOk && exists j :: 0 <= j < |rs| && rs[j].hi > 0)
      && (|a.requested| > 0 ==> a.requested[0] in rs)
      && (|a.requested| == 2 ==> a.requested[1] == FpsRange(Want(desiredFps), Want(desiredFps)))
  {
    var rs := if meta.Some? then Pairs(meta.value) else [];
    ChooseRangeIsAdvertised(rs, Want(desiredFps));
  }

  // ---------------------------------------------------------------------
  // pickBackCameraIdPrefer0
  // ---------------------------------------------------------------------

  /** The first back-facing id's index, or -1. */
  function FirstBackFacing(ids: seq<seq<char>>, back: seq<bool>): (k: int)
    requires |back| == |ids|
    ensures -1 <= k < |ids|
    ensures k >= 0 ==> back[k] && forall j :: 0 <= j < k ==> !back[j]
    ensures k == -1 ==> forall j :: 0 <= j < |ids| ==> !back[j]
  {
    if |ids| == 0 then -1
    else
      var p := FirstBackFacing(ids[..|ids| - 1], back[..|back| - 1]);
      if p >= 0 then p else if back[|back| - 1] then |ids| - 1 else -1
  }

  /** pickBackCameraIdPrefer0. `idList` is the camera id list (None when
      there is no manager or the list cannot be read), `back` whether
      isBackFacing answers true for each id. */
  method PickBackCameraIdPrefer0(idList: Option<seq<seq<char>>>, back: seq<bool>) returns (best: seq<char>)
    requires idList.Some? ==> |back| == |idList.value|
    ensures idList.None? ==> best == ""
    ensures idList.Some? && (exists i :: 0 <= i < |idList.value| && idList.value[i] == "0" && back[i]) ==> best == "0"
    ensures idList.Some? && !(exists i :: 0 <= i < |idList.value| && idList.value[i] == "0" && back[i]) ==>
      var k := FirstBackFacing(idList.value, back);
      best == if k >= 0 then idList.value[k] else ""
  {
    best := "";
    if idList.None? {
      return;
    }
    var ids := idList.value;
    var i := 0;
    while i < |ids|
      invariant 0 <= i <= |ids| && best == ""
      invariant forall j :: 0 <= j < i ==> !(ids[j] == "0" && back[j])
    {
      if ids[i] == "0" && back[i] {
        best := ids[i];
        return;
      }
      i := i + 1;
    }
    i := 0;
    while i < |ids|
      invariant 0 <= i <= |ids| && best == ""
      invariant FirstBackFacing(ids[..i], back[..i]) == -1
    {
      assert ids[..i + 1][..i] == ids[..i] && back[..i + 1][..i] == back[..i];
      if back[i] {
        best := ids[i];
        assert FirstBackFacing(ids, back) == i;
        return;
      }
      i := i + 1;
    }
    assert ids[..i] == ids && back[..i] == back;
  }

  // ---------------------------------------------------------------------
  // start
  // ---------------------------------------------------------------------

  datatype StartError = NoBackCamera | PlumbingFailed | FpsTargetUnavailable | SessionFailed

  /** start's outcome. `setupOk` is whether the camera manager and the
      native window were created, `camId` what pickBackCameraIdPrefer0
      returned, `plumbingOk` whether the device, the outputs, the request and
      its target were created, `chosen` gChosenFps after the range choice, and
      `sessionOk` whether the capture session was created (the repeating
      request's own result is not checked). */
  function Start(setupOk: bool, camId: seq<char>, plumbingOk: bool, chosen: int, sessionOk: bool): (r: Result<int, StartError>)
    ensures r.Ok? <==> setupOk && camId != "" && plumbingOk && chosen >= MinFps && sessionOk
    ensures r.Ok? ==> r.value == chosen
    ensures setupOk && camId != "" && plumbingOk && chosen < MinFps ==> r == Err(FpsTargetUnavailable)
    ensures setupOk && camId == "" ==> r == Err(NoBackCamera)
  {
    if !setupOk then Err(PlumbingFailed)
    else if camId == "" then Err(NoBackCamera)
    else if !plumbingOk then Err(PlumbingFailed)
    else if chosen < MinFps then Err(FpsTargetUnavailable)
    else if !sessionOk then Err(SessionFailed)
    else Ok(chosen)
  }

  /** start succeeds past the fps gate exactly when the range choice found a
      range with a positive max and its first write succeeded; it then
      reports the target, whatever the chosen range's max. */
  lemma StartGate(camId: seq<char>, meta: Option<seq<int>>, desiredFps: int, firstSetOk: bool)
    requires camId != ""
    ensures var rs := if meta.Some? then Pairs(meta.value) else [];
      var r := Start(true, camId, true, ApplyRanges(meta, Want(desiredFps), firstSetOk).chosenFps, true);
      (r.Ok? <==> firstSetOk && exists j :: 0 <= j < |rs| && rs[j].hi > 0)
      && (r.Ok? ==> r.value == Want(desiredFps))
  {
    ChosenFpsZeroOrWant(meta, Want(desiredFps), firstSetOk);
    assert Want(Want(desiredFps)) == Want(desiredFps);
  }

  /** The choice reaches want exactly when some advertised range does. */
  lemma ChoiceReachesWant(rs: seq<FpsRange>, want: int)
    requires want > 0
    ensures ChooseRange(rs, want).hi >= want <==> exists j :: 0 <= j < |rs| && rs[j].hi >= want
  {
    ChooseRangeIsAdvertised(rs, want);
    if exists j :: 0 <= j < |rs| && rs[j].hi >= want {
      var j :| 0 <= j < |rs| && rs[j].hi >= want;
      if !HasExact(rs, want) && Tier2(rs, want) < 0 && Tier3(rs, want) < 0 {
        assert rs[j].hi <= rs[Tier4(rs)].hi;
      }
    }
    if ChooseRange(rs, want).hi >= want {
      var c := ChooseRange(rs, want);
      assert c in rs;
      var j :| 0 <= j < |rs| && rs[j] == c;
    }
  }

  /** As written: with only a 15-30 fps range advertised, tier 4 writes that
      range, gChosenFps still records the 60 fps target, and start passes the
      gate it has for refusing anything below 60. */
  lemma LowRangePassesGate()
    ensures ApplyRanges(Some([15, 30]), 60, true) == Applied(60, [FpsRange(15, 30)])
    ensures Start(true, "0", true, ApplyRanges(Some([15, 30]), 60, true).chosenFps, true) == Ok(60)
  {
    var rs := Pairs([15, 30]);
    assert [15, 30][2..] == [];
    assert rs == [FpsRange(15, 30)];
    assert !HasExact(rs, 60);
    assert rs[..0] == [];
    assert Tier2(rs, 60) == -1 && Tier3(rs, 60) == -1 && Tier4(rs) == 0;
  }

  /** The evident intent of the gate: the target is recorded only when the
      range written can reach it, and 0 otherwise. */
  function ApplyRangesChecked(meta: Option<seq<int>>, desiredFps: int, firstSetOk: bool): Applied
  {
    var rs := if meta.Some? then Pairs(meta.value) else [];
    var a := ApplyRanges(meta, desiredFps, firstSetOk);
    if ChooseRange(rs, Want(desiredFps)).hi < Want(desiredFps) then a.(chosenFps := 0) else a
  }

  /** With the checked rule, start passes the gate exactly when some
      advertised range reaches the target and the first write succeeds, and
      then the range written reaches the target it reports. */
  lemma CheckedGateNeedsReach(camId: seq<char>, meta: Option<seq<int>>, desiredFps: int, firstSetOk: bool)
    requires camId != ""
    ensures var rs := if meta.Some? then Pairs(meta.value) else [];
      var a := ApplyRangesChecked(meta, Want(desiredFps), firstSetOk);
      var r := Start(true, camId, true, a.chosenFps, true);
      (r.Ok? <==> firstSetOk && exists j :: 0 <= j < |rs| && rs[j].hi >= Want(desiredFps))
      && (r.Ok? ==> r.value == Want(desiredFps) && a.requested[0].hi >= Want(desiredFps))
  {
    var rs := if meta.Some? then Pairs(meta.value) else [];
    var want := Want(desiredFps);
    assert Want(want) == want;
    ChosenFpsZeroOrWant(meta, want, firstSetOk);
    ChoiceReachesWant(rs, want);
  }
}
