/** Capture-mode enumeration of the UVC driver (uvc_camera.cpp): the frame
    sizes a pixel format offers (enumFrameSizes), the highest frame rate a
    size offers (enumMaxFpsFor), and the preference-ordered candidate list
    (buildCandidates). The answers of VIDIOC_ENUM_FRAMESIZES and
    VIDIOC_ENUM_FRAMEINTERVALS are inputs: the entries the ioctl reports for
    index 0, 1, ... until it first fails. */
module Negotiation {
  import opened Common
  import opened Controls

  /** V4L2_PIX_FMT_MJPEG ('M','J','P','G') and V4L2_PIX_FMT_YUYV ('Y','U','Y','V'). */
  const FourccMjpeg: uint32 := 0x4750_4A4D
  const FourccYuyv: uint32 := 0x5659_5559

  /** A frame size (width, height), ordered as std::pair orders it. */
  type Size = (int, int)

  /** The size tried when a format reports none. */
  const FallbackSize: Size := (1280, 720)

  /** One VIDIOC_ENUM_FRAMESIZES answer: a discrete size, a stepwise or
      continuous size range, or a type the driver does not know. */
  datatype FrmSizeEnum =
    | SizeDiscrete(width: uint32, height: uint32)
    | SizeStepwise(minWidth: uint32, maxWidth: uint32, minHeight: uint32, maxHeight: uint32)
    | SizeOther

  predicate SizeLess(a: Size, b: Size)
  {
    a.0 < b.0 || (a.0 == b.0 && a.1 < b.1)
  }

  /** Sorted and free of duplicates, as std::sort followed by std::unique leaves it. */
  predicate StrictlySorted(s: seq<Size>)
  {
    forall i, j :: 0 <= i < j < |s| ==> SizeLess(s[i], s[j])
  }

  /** The sizes a stepwise range contributes: its largest size, and 1280x720
      when that lies inside the range. */
  function StepwiseSizes(minW: uint32, maxW: uint32, minH: uint32, maxH: uint32): seq<Size>
  {
    var loW, hiW, loH, hiH := AsInt32(minW), AsInt32(maxW), AsInt32(minH), AsInt32(maxH);
    [(hiW, hiH)] + (if loW <= 1280 <= hiW && loH <= 720 <= hiH then [(1280, 720)] else [])
  }

  /** The sizes enumFrameSizes collects, in enumeration order, before sorting:
      every discrete size, until the first stepwise range, which ends it. */
  function CollectedSizes(es: seq<FrmSizeEnum>): seq<Size>
  {
    if |es| == 0 then []
    else match es[0]
      case SizeDiscrete(w, h) => [(AsInt32(w), AsInt32(h))] + CollectedSizes(es[1..])
      case SizeStepwise(minW, maxW, minH, maxH) => StepwiseSizes(minW, maxW, minH, maxH)
      case SizeOther => CollectedSizes(es[1..])
  }

  /** `s` with `x` added, keeping it strictly sorted. */
  function InsertSize(x: Size, s: seq<Size>): (r: seq<Size>)
    requires StrictlySorted(s)
    ensures StrictlySorted(r)
    ensures forall y :: y in r <==> y == x || y in s
  {
    if |s| == 0 then [x]
    else if x == s[0] then s
    else if SizeLess(x, s[0]) then [x] + s
    else
      var rest := InsertSize(x, s[1..]);
      assert forall y :: y in rest ==> SizeLess(s[0], y);
      [s[0]] + rest
  }

  /** The strictly sorted list holding exactly the elements of `s`. */
  function SortUnique(s: seq<Size>): (r: seq<Size>)
    ensures StrictlySorted(r)
    ensures forall y :: y in r <==> y in s
  {
    if |s| == 0 then []
    else InsertSize(s[|s| - 1], SortUnique(s[..|s| - 1]))
  }

  lemma HeadIsElement(s: seq<Size>)
    ensures |s| > 0 ==> s[0] in s
  {
  }

  /** A strictly sorted list is determined by its elements, so sorting and
      removing duplicates has exactly one possible outcome. */
  lemma {:induction false} StrictlySortedUnique(a: seq<Size>, b: seq<Size>)
    requires StrictlySorted(a) && StrictlySorted(b)
    requires forall y :: y in a <==> y in b
    ensures a == b
  {
    if |a| == 0 || |b| == 0 {
      HeadIsElement(a);
      HeadIsElement(b);
    } else {
      assert a[0] in b && b[0] in a;
      assert a[0] == b[0];
      assert a == [a[0]] + a[1..];
      assert b == [b[0]] + b[1..];
      forall y | y in a[1..]
        ensures y in b[1..]
      {
        var k :| 0 <= k < |a[1..]| && a[1..][k] == y;
        assert SizeLess(a[0], a[k + 1]);
        assert y in b && y != b[0];
        var m :| 0 <= m < |b| && b[m] == y;
        assert b[1..][m - 1] == y;
      }
      forall y | y in b[1..]
        ensures y in a[1..]
      {
        var k :| 0 <= k < |b[1..]| && b[1..][k] == y;
        assert SizeLess(b[0], b[k + 1]);
        assert y in a && y != a[0];
        var m :| 0 <= m < |a| && a[m] == y;
        assert a[1..][m - 1] == y;
      }
      StrictlySortedUnique(a[1..], b[1..]);
      assert a == [a[0]] + a[1..] && b == [b[0]] + b[1..];
    }
  }

  /** The enumeration loop of enumFrameSizes. */
  method CollectSizes(es: seq<FrmSizeEnum>) returns (out: seq<Size>)
    ensures out == CollectedSizes(es)
  {
    out := [];
    var i := 0;
    while i < |es|
      invariant 0 <= i <= |es|
      invariant out + CollectedSizes(es[i..]) == CollectedSizes(es)
    {
      match es[i] {
      case SizeDiscrete(w, h) =>
        assert CollectedSizes(es[i..]) == [(AsInt32(w), AsInt32(h))] + CollectedSizes(es[i + 1..]);
        out := out + [(AsInt32(w), AsInt32(h))];
      case SizeStepwise(minW, maxW, minH, maxH) =>
        assert CollectedSizes(es[i..]) == StepwiseSizes(minW, maxW, minH, maxH);
        out := out + [(AsInt32(maxW), AsInt32(maxH))];
        var loW, hiW, loH, hiH := AsInt32(minW), AsInt32(maxW), AsInt32(minH), AsInt32(maxH);
        if 1280 >= loW && 1280 <= hiW && 720 >= loH && 720 <= hiH {
          out := out + [(1280, 720)];
        }
        return;
      case SizeOther =>
        assert CollectedSizes(es[i..]) == CollectedSizes(es[i + 1..]);
      }
      i := i + 1;
    }
  }

  /** std::sort followed by std::unique and erase, as insertions into a
      strictly sorted list. */
  method SortSizes(out: seq<Size>) returns (sizes: seq<Size>)
    ensures sizes == SortUnique(out)
  {
    sizes := [];
    var k := 0;
    while k < |out|
      invariant 0 <= k <= |out|
      invariant sizes == SortUnique(out[..k])
    {
      assert out[..k + 1][..k] == out[..k];
      sizes := InsertSize(out[k], sizes);
      k := k + 1;
    }
    assert out[..k] == out;
  }

  /** enumFrameSizes: the sizes the format offers, sorted and without
      duplicates. */
  method EnumFrameSizes(es: seq<FrmSizeEnum>) returns (sizes: seq<Size>)
    ensures sizes == SortUnique(CollectedSizes(es))
    ensures StrictlySorted(sizes)
    ensures forall s :: s in sizes <==> s in CollectedSizes(es)
  {
    var out := CollectSizes(es);
    sizes := SortSizes(out);
  }

  /** One VIDIOC_ENUM_FRAMEINTERVALS answer: a discrete time-per-frame, the
      bounds of a stepwise or continuous range (of which the shortest
      interval is used), or an unknown type. */
  datatype FrmIvalEnum =
    | IvalDiscrete(numerator: uint32, denominator: uint32)
    | IvalStepwise(minNumerator: uint32, minDenominator: uint32)
    | IvalOther

  /** The frame rate an interval contributes: `den / num` of its `(int)`
      fields when both are positive, otherwise nothing (0). */
  function IntervalFps(num: uint32, den: uint32): (fps: nat)
    ensures 0 < num <= Int32Max && 0 < den <= Int32Max ==> fps * num <= den < (fps + 1) * num
    ensures num == 0 || num > Int32Max || den == 0 || den > Int32Max ==> fps == 0
  {
    match FpsOfInterval(AsInt32(num), AsInt32(den))
    case Some(f) => f
    case None => 0
  }

  function EntryFps(e: FrmIvalEnum): nat
  {
    match e
    case IvalDiscrete(n, d) => IntervalFps(n, d)
    case IvalStepwise(n, d) => IntervalFps(n, d)
    case IvalOther => 0
  }

  /** The answer at index k is examined: no stepwise range came before it. */
  predicate Reached(es: seq<FrmIvalEnum>, k: int)
    requires 0 <= k <= |es|
  {
    forall j :: 0 <= j < k ==> !es[j].IvalStepwise?
  }

  /** The highest frame rate among the answers enumMaxFpsFor examines; 0 when
      none gives one. */
  function MaxFps(es: seq<FrmIvalEnum>): nat
  {
    if |es| == 0 then 0
    else match es[0]
      case IvalDiscrete(n, d) => Max(IntervalFps(n, d), MaxFps(es[1..]))
      case IvalStepwise(n, d) => IntervalFps(n, d)
      case IvalOther => MaxFps(es[1..])
  }

  /** MaxFps is the maximum of the examined answers' rates: no examined
      answer exceeds it, and a positive value is attained by one of them. */
  lemma {:induction false} MaxFpsIsMaximum(es: seq<FrmIvalEnum>)
    ensures forall k :: 0 <= k < |es| && Reached(es, k) ==> EntryFps(es[k]) <= MaxFps(es)
    ensures MaxFps(es) == 0 || exists k :: 0 <= k < |es| && Reached(es, k) && EntryFps(es[k]) == MaxFps(es)
  {
    if |es| > 0 {
      var rest := es[1..];
      MaxFpsIsMaximum(rest);
      forall k | 0 <= k < |es| && Reached(es, k)
        ensures EntryFps(es[k]) <= MaxFps(es)
      {
        if k > 0 {
          assert Reached(rest, k - 1) by {
            forall j | 0 <= j < k - 1 ensures !rest[j].IvalStepwise? {
              assert rest[j] == es[j + 1];
            }
          }
          assert rest[k - 1] == es[k];
        }
      }
      if MaxFps(es) != 0 && !es[0].IvalStepwise? && MaxFps(es) != EntryFps(es[0]) {
        assert MaxFps(es) == MaxFps(rest);
        var k :| 0 <= k < |rest| && Reached(rest, k) && EntryFps(rest[k]) == MaxFps(rest);
        assert es[k + 1] == rest[k];
        assert Reached(es, k + 1) by {
          forall j | 0 <= j < k + 1 ensures !es[j].IvalStepwise? {
            if j > 0 { assert es[j] == rest[j - 1]; }
          }
        }
      } else if MaxFps(es) != 0 {
        assert Reached(es, 0);
      }
    }
  }

  /** enumMaxFpsFor: the highest frame rate the size offers. */
  method EnumMaxFpsFor(es: seq<FrmIvalEnum>) returns (best: nat)
    ensures best == MaxFps(es)
  {
    best := 0;
    var i := 0;
    while i < |es|
      invariant 0 <= i <= |es|
      invariant Max(best, MaxFps(es[i..])) == MaxFps(es)
    {
      match es[i] {
      case IvalDiscrete(n, d) =>
        assert MaxFps(es[i..]) == Max(IntervalFps(n, d), MaxFps(es[i + 1..]));
        best := Max(best, IntervalFps(n, d));
      case IvalStepwise(n, d) =>
        best := Max(best, IntervalFps(n, d));
        break;
      case IvalOther =>
        assert MaxFps(es[i..]) == MaxFps(es[i + 1..]);
      }
      i := i + 1;
    }
  }

  /** ModeCand: a size of a format, its best frame rate, and whether that
      meets the requested rate. */
  datatype ModeCand = ModeCand(w: int, h: int, f: uint32, maxFps: int, scoreMeet: int)

  /** The identity buildCandidates de-duplicates on. */
  function Key(c: ModeCand): (uint32, int, int)
  {
    (c.f, c.w, c.h)
  }

  function Area(c: ModeCand): int
  {
    c.w * c.h
  }

  /** The comparator of buildCandidates' final sort: `a` goes before `b`. */
  predicate Before(a: ModeCand, b: ModeCand)
  {
    if a.scoreMeet != b.scoreMeet then a.scoreMeet > b.scoreMeet
    else if Area(a) != Area(b) then Area(a) > Area(b)
    else if a.maxFps != b.maxFps then a.maxFps > b.maxFps
    else if a.f != b.f then a.f == FourccMjpeg
    else false
  }

  /** The comparator is a strict weak order, as std::sort requires. */
  lemma BeforeIsStrictOrder(a: ModeCand, b: ModeCand, c: ModeCand)
    ensures !Before(a, a)
    ensures Before(a, b) && Before(b, c) ==> Before(a, c)
    ensures !Before(a, b) && !Before(b, a) && !Before(b, c) && !Before(c, b) ==> !Before(a, c) && !Before(c, a)
  {
  }

  predicate PreferenceSorted(s: seq<ModeCand>)
  {
    forall i, j :: 0 <= i < j < |s| ==> !Before(s[j], s[i])
  }

  predicate DistinctKeys(s: seq<ModeCand>)
  {
    forall i, j :: 0 <= i < j < |s| ==> Key(s[i]) != Key(s[j])
  }

  lemma SortedCons(h: ModeCand, t: seq<ModeCand>)
    requires PreferenceSorted(t) && forall y :: y in t ==> !Before(y, h)
    ensures PreferenceSorted([h] + t)
  {
    forall i, j | 0 <= i < j < |[h] + t| ensures !Before(([h] + t)[j], ([h] + t)[i]) {
      if i > 0 {
        assert ([h] + t)[i] == t[i - 1];
      }
      assert ([h] + t)[j] == t[j - 1];
    }
  }

  lemma DistinctCons(h: ModeCand, t: seq<ModeCand>)
    requires DistinctKeys(t) && forall y :: y in t ==> Key(y) != Key(h)
    ensures DistinctKeys([h] + t)
  {
    forall i, j | 0 <= i < j < |[h] + t| ensures Key(([h] + t)[i]) != Key(([h] + t)[j]) {
      if i > 0 {
        assert ([h] + t)[i] == t[i - 1];
      }
      assert ([h] + t)[j] == t[j - 1];
    }
  }

  /** `s` with `x` placed before the first element it goes before. */
  function InsertCand(x: ModeCand, s: seq<ModeCand>): (r: seq<ModeCand>)
    requires PreferenceSorted(s)
    ensures PreferenceSorted(r)
    ensures |r| == |s| + 1
    ensures forall y :: y in r <==> y == x || y in s
    ensures DistinctKeys(s) && (forall y :: y in s ==> Key(y) != Key(x)) ==> DistinctKeys(r)
  {
    if |s| == 0 then [x]
    else if Before(x, s[0]) then
      assert forall y :: y in s ==> !Before(y, x) by {
        forall y | y in s ensures !Before(y, x) {
          var k :| 0 <= k < |s| && s[k] == y;
          BeforeIsStrictOrder(s[k], x, s[0]);
          BeforeIsStrictOrder(s[0], x, s[0]);
        }
      }
      SortedCons(x, s);
      assert DistinctKeys(s) && (forall y :: y in s ==> Key(y) != Key(x)) ==> DistinctKeys([x] + s) by {
        if DistinctKeys(s) && (forall y :: y in s ==> Key(y) != Key(x)) {
          DistinctCons(x, s);
        }
      }
      [x] + s
    else
      var t := s[1..];
      assert PreferenceSorted(t) by {
        forall i, j | 0 <= i < j < |t| ensures !Before(t[j], t[i]) {
          assert t[i] == s[i + 1] && t[j] == s[j + 1];
        }
      }
      var rest := InsertCand(x, t);
      assert forall y :: y in rest ==> !Before(y, s[0]) by {
        forall y | y in rest ensures !Before(y, s[0]) {
          if y != x {
            var k :| 0 <= k < |t| && t[k] == y;
            assert s[k + 1] == y;
          }
        }
      }
      SortedCons(s[0], rest);
      assert DistinctKeys(s) && (forall y :: y in s ==> Key(y) != Key(x)) ==> DistinctKeys([s[0]] + rest) by {
        if DistinctKeys(s) && (forall y :: y in s ==> Key(y) != Key(x)) {
          assert DistinctKeys(t) by {
            forall i, j | 0 <= i < j < |t| ensures Key(t[i]) != Key(t[j]) {
              assert t[i] == s[i + 1] && t[j] == s[j + 1];
            }
          }
          assert forall y :: y in t ==> Key(y) != Key(x);
          forall y | y in rest ensures Key(y) != Key(s[0]) {
            if y != x {
              var k :| 0 <= k < |t| && t[k] == y;
              assert s[k + 1] == y;
            }
          }
          DistinctCons(s[0], rest);
        }
      }
      [s[0]] + rest
  }

  /** The sizes buildCandidates tries for a format: the enumerated ones, or
      1280x720 when there are none. */
  function SizesFor(es: seq<FrmSizeEnum>): seq<Size>
  {
    var s := SortUnique(CollectedSizes(es));
    if |s| == 0 then [FallbackSize] else s
  }

  function Candidate(f: uint32, s: Size, ivals: seq<FrmIvalEnum>, desired: int): ModeCand
  {
    var m := MaxFps(ivals);
    ModeCand(s.0, s.1, f, m, if m >= desired then 1 else 0)
  }

  /** The candidates of format `f` from the sizes `sizes`, skipping sizes
      that are not positive. */
  function CandsFor(f: uint32, sizes: seq<Size>, ivalsOf: (uint32, int, int) -> seq<FrmIvalEnum>, desired: int): seq<ModeCand>
  {
    if |sizes| == 0 then []
    else
      var s := sizes[|sizes| - 1];
      CandsFor(f, sizes[..|sizes| - 1], ivalsOf, desired)
        + (if s.0 > 0 && s.1 > 0 then [Candidate(f, s, ivalsOf(f, s.0, s.1), desired)] else [])
  }

  /** The candidates of the formats `fmts`, in that order. */
  function FormatsCandidates(fmts: seq<uint32>, sizesOf: uint32 -> seq<FrmSizeEnum>,
                             ivalsOf: (uint32, int, int) -> seq<FrmIvalEnum>, desired: int): seq<ModeCand>
  {
    if |fmts| == 0 then []
    else
      var f := fmts[|fmts| - 1];
      FormatsCandidates(fmts[..|fmts| - 1], sizesOf, ivalsOf, desired) + CandsFor(f, SizesFor(sizesOf(f)), ivalsOf, desired)
  }

  /** Every candidate buildCandidates collects, MJPEG sizes first. */
  function RawCandidates(sizesOf: uint32 -> seq<FrmSizeEnum>, ivalsOf: (uint32, int, int) -> seq<FrmIvalEnum>,
                         desired: int): seq<ModeCand>
  {
    FormatsCandidates([FourccMjpeg, FourccYuyv], sizesOf, ivalsOf, desired)
  }

  /** A candidate of format `f` is exactly a positive size offered for `f`,
      with that size's best rate and the score it earns. */
  lemma {:induction false} CandsForMembers(f: uint32, sizes: seq<Size>, ivalsOf: (uint32, int, int) -> seq<FrmIvalEnum>,
                                           desired: int, c: ModeCand)
    ensures c in CandsFor(f, sizes, ivalsOf, desired) <==>
              (c.w, c.h) in sizes && c.w > 0 && c.h > 0 && c == Candidate(f, (c.w, c.h), ivalsOf(f, c.w, c.h), desired)
  {
    if |sizes| > 0 {
      var init, s := sizes[..|sizes| - 1], sizes[|sizes| - 1];
      CandsForMembers(f, init, ivalsOf, desired, c);
      assert sizes == init + [s];
    }
  }

  /** Each collected candidate is positive, carries its size's best rate,
      and scores 1 exactly when that rate meets the request; two candidates
      with the same format and size are the same candidate. */
  lemma RawCandidatesFacts(sizesOf: uint32 -> seq<FrmSizeEnum>, ivalsOf: (uint32, int, int) -> seq<FrmIvalEnum>,
                           desired: int)
    ensures forall c :: c in RawCandidates(sizesOf, ivalsOf, desired) ==>
              (c.f == FourccMjpeg || c.f == FourccYuyv) && c.w > 0 && c.h > 0 && (c.w, c.h) in SizesFor(sizesOf(c.f))
              && c.maxFps == MaxFps(ivalsOf(c.f, c.w, c.h)) && c.scoreMeet == (if c.maxFps >= desired then 1 else 0)
    ensures forall c, d :: c in RawCandidates(sizesOf, ivalsOf, desired) && d in RawCandidates(sizesOf, ivalsOf, desired)
              && Key(c) == Key(d)
              ==> c == d
  {
    var mj := CandsFor(FourccMjpeg, SizesFor(sizesOf(FourccMjpeg)), ivalsOf, desired);
    var yu := CandsFor(FourccYuyv, SizesFor(sizesOf(FourccYuyv)), ivalsOf, desired);
    assert [FourccMjpeg, FourccYuyv][..1] == [FourccMjpeg];
    assert [FourccMjpeg][..0] == [];
    assert FormatsCandidates([FourccMjpeg], sizesOf, ivalsOf, desired) == mj by {
      assert FormatsCandidates([], sizesOf, ivalsOf, desired) == [];
    }
    assert RawCandidates(sizesOf, ivalsOf, desired) == mj + yu;
    forall c | c in RawCandidates(sizesOf, ivalsOf, desired)
      ensures (c.f == FourccMjpeg || c.f == FourccYuyv) && c.w > 0 && c.h > 0 && (c.w, c.h) in SizesFor(sizesOf(c.f))
              && c == Candidate(c.f, (c.w, c.h), ivalsOf(c.f, c.w, c.h), desired)
    {
      CandsForMembers(FourccMjpeg, SizesFor(sizesOf(FourccMjpeg)), ivalsOf, desired, c);
      CandsForMembers(FourccYuyv, SizesFor(sizesOf(FourccYuyv)), ivalsOf, desired, c);
    }
  }

  /** One pass of buildCandidates' format loop: the sizes of format `f`,
      or the fallback size, each positive one with its best rate and score. */
  method CandidatesOfFormat(f: uint32, sizeAnswers: seq<FrmSizeEnum>, ivalsOf: (uint32, int, int) -> seq<FrmIvalEnum>,
                            desiredFps: int) returns (cs: seq<ModeCand>)
    ensures cs == CandsFor(f, SizesFor(sizeAnswers), ivalsOf, desiredFps)
  {
    var sizes := EnumFrameSizes(sizeAnswers);
    if |sizes| == 0 {
      sizes := [FallbackSize];
    }
    cs := [];
    var k := 0;
    while k < |sizes|
      invariant 0 <= k <= |sizes|
      invariant cs == CandsFor(f, sizes[..k], ivalsOf, desiredFps)
    {
      var w, h := sizes[k].0, sizes[k].1;
      assert sizes[..k + 1][..k] == sizes[..k];
      if w > 0 && h > 0 {
        var m := EnumMaxFpsFor(ivalsOf(f, w, h));
        cs := cs + [ModeCand(w, h, f, m, if m >= desiredFps then 1 else 0)];
      }
      k := k + 1;
    }
    assert sizes[..k] == sizes;
  }

  /** The collecting loop of buildCandidates, over MJPEG then YUYV. */
  method CollectCandidates(sizesOf: uint32 -> seq<FrmSizeEnum>, ivalsOf: (uint32, int, int) -> seq<FrmIvalEnum>,
                           desiredFps: int) returns (raw: seq<ModeCand>)
    ensures raw == RawCandidates(sizesOf, ivalsOf, desiredFps)
  {
    var fmts := [FourccMjpeg, FourccYuyv];
    raw := [];
    var fi := 0;
    while fi < |fmts|
      invariant 0 <= fi <= |fmts|
      invariant raw == FormatsCandidates(fmts[..fi], sizesOf, ivalsOf, desiredFps)
    {
      var cs := CandidatesOfFormat(fmts[fi], sizesOf(fmts[fi]), ivalsOf, desiredFps);
      assert fmts[..fi + 1][..fi] == fmts[..fi];
      raw := raw + cs;
      fi := fi + 1;
    }
    assert fmts[..fi] == fmts;
  }

  /** The first sort and std::unique of buildCandidates: one entry per
      (format, width, height). When equal keys mean equal entries, nothing
      but duplicates is lost. */
  method DedupeByKey(raw: seq<ModeCand>) returns (uniq: seq<ModeCand>)
    ensures DistinctKeys(uniq)
    ensures forall c :: c in uniq ==> c in raw
    ensures forall c :: c in raw ==> exists d :: d in uniq && Key(d) == Key(c)
  {
    uniq := [];
    var i := 0;
    while i < |raw|
      invariant 0 <= i <= |raw|
      invariant DistinctKeys(uniq)
      invariant forall c :: c in uniq ==> c in raw[..i]
      invariant forall c :: c in raw[..i] ==> exists d :: d in uniq && Key(d) == Key(c)
    {
      var c := raw[i];
      if !(exists d :: d in uniq && Key(d) == Key(c)) {
        uniq := uniq + [c];
        assert c in uniq;
      }
      assert raw[..i + 1] == raw[..i] + [c];
      i := i + 1;
    }
    assert raw[..i] == raw;
  }

  /** The final sort of buildCandidates, by the preference comparator. */
  method SortByPreference(uniq: seq<ModeCand>) returns (out: seq<ModeCand>)
    requires DistinctKeys(uniq)
    ensures PreferenceSorted(out) && DistinctKeys(out)
    ensures forall c :: c in out <==> c in uniq
    ensures |out| == |uniq|
  {
    out := [];
    var j := 0;
    while j < |uniq|
      invariant 0 <= j <= |uniq|
      invariant PreferenceSorted(out) && DistinctKeys(out) && |out| == j
      invariant forall c :: c in out <==> c in uniq[..j]
    {
      forall y | y in out ensures Key(y) != Key(uniq[j]) {
        var k :| 0 <= k < j && uniq[k] == y;
      }
      out := InsertCand(uniq[j], out);
      assert uniq[..j + 1] == uniq[..j] + [uniq[j]];
      j := j + 1;
    }
    assert uniq[..j] == uniq;
  }

  /** buildCandidates: every positive size of MJPEG and YUYV once, each with
      its best rate and score, best first: meeting the requested rate, then
      larger area, then higher rate, then MJPEG. Candidates the comparator
      ties may appear in either order, as with std::sort. */
  method BuildCandidates(sizesOf: uint32 -> seq<FrmSizeEnum>, ivalsOf: (uint32, int, int) -> seq<FrmIvalEnum>,
                         desiredFps: int) returns (out: seq<ModeCand>)
    ensures forall c :: c in out <==> c in RawCandidates(sizesOf, ivalsOf, desiredFps)
    ensures DistinctKeys(out)
    ensures PreferenceSorted(out)
    ensures forall i, j :: 0 <= i < j < |out| ==> out[i].scoreMeet >= out[j].scoreMeet
    ensures forall i, j :: 0 <= i < j < |out| && out[i].scoreMeet == out[j].scoreMeet ==> Area(out[i]) >= Area(out[j])
  {
    var raw := CollectCandidates(sizesOf, ivalsOf, desiredFps);
    var uniq := DedupeByKey(raw);
    RawCandidatesFacts(sizesOf, ivalsOf, desiredFps);
    forall c | c in raw ensures c in uniq {
      var d :| d in uniq && Key(d) == Key(c);
    }
    out := SortByPreference(uniq);
  }
}
