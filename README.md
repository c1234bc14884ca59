# ndk-uvc-cam-app core, modelled in Dafny

This project models the integer and selection logic of an Android app that shows two camera previews:
- the phone's back camera, through the Camera2 NDK;
- an external USB (UVC) camera, driven directly through V4L2.

The modelled parts are:

- **UVC negotiation and control arithmetic** (`Controls`, `Negotiation`, `ModeSelect`, `DeviceScan`):
  - the control range read from `VIDIOC_QUERYCTRL`;
  - clamping a value onto a control's step grid;
  - the frame-rate-dependent exposure ceiling;
  - the frame rate of a time-per-frame fraction;
  - the sorted, de-duplicated frame-size list and the best rate per size;
  - the de-duplicated, preference-ordered list of capture modes;
  - the best-candidate loop of `setupLocked`, with its buffer-pool check (at least 4 buffers);
  - the scan of `/dev/video0..63`, which prefers the `uvcvideo` driver.
- **The software auto-exposure controller** (`AutoExposure`): the rate-limited, dead-banded, one-step-at-a-time state machine. It moves gain first on bright frames and exposure first on dark ones. It stores exposure and gain only after a successful write. The part of `applyControls` that arms it is modelled too. That code tests the published format `gChosenFourcc`, which is still 0 while `setupLocked` tries candidates, so it arms the controller for every tried mode, MJPEG included, whenever an exposure or gain control exists (see Findings).
- **Byte-buffer operations** (`Luma`, `Mailbox`, `Render`):
  - the strided luma samplers over YUYV and RGBA frames;
  - the one-slot frame mailbox between the capture and decode threads;
  - the clip-and-pad copy of a frame into the window buffer.
- **Back-camera frame-rate selection** (`BackCamera`):
  - reading the advertised AE target ranges;
  - the four-tier choice of one range and the writes that follow;
  - the camera id preference for `"0"`;
  - the 60 fps gate of `start`.
- **The chosen-mode string and the UI controllers** (`ModeString`, `StartGuard`, `UvcUi`, `MainUi`):
  - the `"<fourcc> <w>x<h>"` string of `uvc::chosenMode`, and the Kotlin regex parse back into buffer dimensions and the format tag;
  - the started/starting guard around the native start and stop;
  - the oval size of the two-preview layout.

Device, OS and library calls are inputs of the model:
- what an ioctl returned, or whether it succeeded;
- the probe result of each device node;
- the metadata list;
- whether a window could be locked;
- the result of the start job.

Code that updates state in place is modelled as Dafny classes with `modifies` clauses: the auto-exposure globals, the frame slot, and the Kotlin controllers' fields. In-place buffer work stays on `array`s (the samplers and the window copy). Loops become methods, each proved against a specification function.

The auto-exposure dead band is not a no-op: the code stores the adjustment timestamp with a compare-and-swap (uvc_camera.cpp:421) before the dead-band return (uvc_camera.cpp:425), so a dead-band sample restarts the 60 ms interval; see `AutoExposure.DeadBandOnlyStampsTime`.

## Model

| member | source | states |
|---|---|---|
| Controls.ReadRange | app/src/main/cpp/uvc/uvc_camera.cpp:136-169 | The range is supported exactly when the query succeeded and the control is not disabled. Min, max and default come from the query. The step is the reported step when that is at least 1, and exactly 1 otherwise. A failed query gives the value-initialised range. |
| Controls.ClampToRange | app/src/main/cpp/uvc/uvc_camera.cpp:171-180 | Identity on an unsupported control. On a well-formed range the result: lies in [minV, maxV]; is at most the clamped input; is on the grid minV + k*step; is less than one step below the clamped input. |
| Controls.ClampToRangeIdempotent | app/src/main/cpp/uvc/uvc_camera.cpp:171-180 | Clamping twice equals clamping once. |
| Controls.FixedPointOnGrid | app/src/main/cpp/uvc/uvc_camera.cpp:171-180 | Every in-range grid point is left unchanged. |
| Controls.ClampToRangeMonotone | app/src/main/cpp/uvc/uvc_camera.cpp:171-180 | Clamping preserves the order of two values. |
| Controls.OneStepOnGrid | app/src/main/cpp/uvc/uvc_camera.cpp:449-470 | From an in-range grid point, a step down that stays at or above the minimum lands exactly one step lower. A step up that stays at or below the maximum lands exactly one step higher. |
| Controls.ExposureCapAbsForFps | app/src/main/cpp/uvc/uvc_camera.cpp:401-411 | 0 for an unsupported control. Otherwise the result lies in [minV, maxV] and is at most max(2000/100, minV). It is within the 650000/fps µs share, floored at 100 µs, or at minV. |
| Controls.ExposureCapNonIncreasing | app/src/main/cpp/uvc/uvc_camera.cpp:401-411 | A higher frame rate never raises the exposure ceiling. |
| Controls.FpsOfInterval | app/src/main/cpp/uvc/uvc_camera.cpp:274-276 | A rate exists exactly when numerator and denominator are positive. It is the floor of den/num: fps*num <= den < (fps+1)*num. |
| Controls.ReadFps | app/src/main/cpp/uvc/uvc_camera.cpp:270-279 | Returns the fallback when G_PARM fails, or when a field is zero or negative after the int cast. Otherwise returns floor(den/num). |
| AutoExposure.RefusedStepIsQuiet | app/src/main/cpp/uvc/uvc_camera.cpp:414-420 | Disabled, a non-positive sample, or less than 60 ms since a non-zero last adjustment: nothing changes and nothing is written. |
| AutoExposure.DeadBandOnlyStampsTime | app/src/main/cpp/uvc/uvc_camera.cpp:417-425 | An admitted sample within 3 of the target 80 only moves the adjustment timestamp, and writes nothing. |
| AutoExposure.CommitOnlyOnSuccess | app/src/main/cpp/uvc/uvc_camera.cpp:445-481 | Exposure or gain changes only when a write was issued and succeeded. A failed write stores neither. The written control takes exactly the written value. The timestamp moves exactly when the step is admitted. |
| AutoExposure.WritesStayInRange | app/src/main/cpp/uvc/uvc_camera.cpp:445-476 | Every write is inside its control's range. An exposure increase stays above the current value and at most the ceiling. Every decrease really lowers the value. |
| AutoExposure.BrightPrefersGain | app/src/main/cpp/uvc/uvc_camera.cpp:447-460 | Too bright: exposure is written only when gain cannot be lowered. While gain can be lowered, exposure is never written. |
| AutoExposure.DarkPrefersExposure | app/src/main/cpp/uvc/uvc_camera.cpp:461-475 | Too dark: gain is written only when exposure is not below a positive ceiling. While it is below, gain is never written. |
| AutoExposure.MovesOneStep | app/src/main/cpp/uvc/uvc_camera.cpp:447-476 | From in-range grid values each write moves exactly one step. An exposure increase stops at the ceiling. |
| AutoExposure.TopOfGrid | app/src/main/cpp/uvc/uvc_camera.cpp:469-474 | From the highest grid point, one step up snaps back onto that point, so no gain write is issued. |
| AutoExposure.InitialExposure | app/src/main/cpp/uvc/uvc_camera.cpp:573-582 | The starting exposure is on the grid, between the minimum and the ceiling for the rate. |
| AutoExposure.SetupArmsSoftwareAe | app/src/main/cpp/uvc/uvc_camera.cpp:540-591 | As written: with the published format at its setup value 0, the controller is armed exactly when exposure or gain exists. So an MJPEG trial with an exposure control is armed, although testing the trial's own format would leave it off. |
| AutoExposure.TrialFormatDecides | app/src/main/cpp/uvc/uvc_camera.cpp:555-563 | Corrected, testing the trial's format: MJPEG never arms the controller, and YUYV arms it exactly as the code does now. |
| AutoExposure.AeController.constructor | app/src/main/cpp/uvc/uvc_camera.cpp:760-769 | The teardown state: disabled, no ranges, exposure, gain and timestamp all zero, and no published format (gChosenFourcc 0). |
| AutoExposure.AeController.OpenDevice | app/src/main/cpp/uvc/uvc_camera.cpp:779-780 | setupLocked stores openBestNode's descriptor; the controller counts the device as open exactly when it is non-negative, the `gFd < 0` test of line 428. |
| AutoExposure.AeController.PublishFps | app/src/main/cpp/uvc/uvc_camera.cpp:834 | setupLocked publishes the best accepted trial's rate when positive, and otherwise the target. |
| AutoExposure.AeController.PublishFourcc | app/src/main/cpp/uvc/uvc_camera.cpp:838 | setupLocked publishes the negotiated pixel format, after its candidate loop. |
| AutoExposure.AeController.ApplyAeControls | app/src/main/cpp/uvc/uvc_camera.cpp:540-592 | Both ranges are re-read. The branch is chosen on the published format gChosenFourcc, which is left unchanged. When that is MJPEG the controller is disabled. Otherwise the controller is ArmedBy the published format (enabled when either control exists), and the initial exposure and the minimum gain are stored only when their writes succeed. |
| AutoExposure.AeController.MaybeAdjust | app/src/main/cpp/uvc/uvc_camera.cpp:413-482 | The new exposure, gain and timestamp, and the write issued, are exactly one Step of the controller from the old state. |
| Luma.RgbLuma | app/src/main/cpp/uvc/uvc_camera.cpp:392-393 | (77R + 150G + 29B) >> 8 is in [0, 255] and maps grey to itself. |
| Luma.OffsetInBounds | app/src/main/cpp/uvc/uvc_camera.cpp:368-374 | Every byte of every pixel of a w x h frame lies inside its packed buffer. |
| Luma.SampledAverage | app/src/main/cpp/uvc/uvc_camera.cpp:364-399 | The mean of the sampled grid is in [0, 255]. |
| Luma.SampleRow | app/src/main/cpp/uvc/uvc_camera.cpp:373-376 | The inner loop's sum and count are those of every stepX-th pixel of row y. |
| Luma.SampleLoop | app/src/main/cpp/uvc/uvc_camera.cpp:366-378 | The nested loops compute the sampled mean with steps max(1, w/64) and max(1, h/36). |
| Luma.AvgLumaYuyvSample | app/src/main/cpp/uvc/uvc_camera.cpp:364-379 | 0 for a null buffer or non-positive size. Otherwise the sampled mean of the Y bytes. Always in [0, 255]. |
| Luma.AvgLumaRgbaSample | app/src/main/cpp/uvc/uvc_camera.cpp:381-399 | 0 for a null buffer or non-positive size. Otherwise the sampled mean of the weighted luma. Always in [0, 255]. |
| Luma.UniformFrameAverage | app/src/main/cpp/uvc/uvc_camera.cpp:381-399 | A frame of one grey level samples to exactly that level in both layouts, because the weights add up to 256. |
| Negotiation.InsertSize | app/src/main/cpp/uvc/uvc_camera.cpp:631-632 | Inserting into a strictly sorted list keeps it strictly sorted and adds exactly that size. |
| Negotiation.SortUnique | app/src/main/cpp/uvc/uvc_camera.cpp:631-632 | The result is strictly sorted by (w, h) and has the same elements as the input. |
| Negotiation.StrictlySortedUnique | app/src/main/cpp/uvc/uvc_camera.cpp:631-632 | Two strictly sorted lists with the same elements are equal, so sort + unique has exactly one result. |
| Negotiation.CollectSizes | app/src/main/cpp/uvc/uvc_camera.cpp:606-629 | Collects every discrete size in order. At the first stepwise or continuous range it adds the range's largest size, then 1280x720 when the range contains it, and stops. |
| Negotiation.SortSizes | app/src/main/cpp/uvc/uvc_camera.cpp:631-632 | The sort-and-unique step yields SortUnique of the collected sizes. |
| Negotiation.EnumFrameSizes | app/src/main/cpp/uvc/uvc_camera.cpp:600-634 | The size list is strictly sorted and holds exactly the enumerated sizes. |
| Negotiation.IntervalFps | app/src/main/cpp/uvc/uvc_camera.cpp:645-648 | den/num after the int casts: its floor when both are positive, else 0. |
| Negotiation.MaxFpsIsMaximum | app/src/main/cpp/uvc/uvc_camera.cpp:636-663 | The best rate bounds every interval reached before the first stepwise entry. It is 0 or attained by one of them. |
| Negotiation.EnumMaxFpsFor | app/src/main/cpp/uvc/uvc_camera.cpp:636-663 | The loop returns MaxFps of the enumeration. |
| Negotiation.BeforeIsStrictOrder | app/src/main/cpp/uvc/uvc_camera.cpp:712-724 | The final comparator is irreflexive and transitive, and incomparability is transitive: a strict weak order, as std::sort needs. |
| Negotiation.InsertCand | app/src/main/cpp/uvc/uvc_camera.cpp:712-724 | Inserting keeps the list preference-sorted, adds exactly one element, and keeps distinct keys distinct. |
| Negotiation.CandsForMembers | app/src/main/cpp/uvc/uvc_camera.cpp:687-700 | A candidate of a format is exactly a positive offered size, together with that size's best rate and its score. |
| Negotiation.RawCandidatesFacts | app/src/main/cpp/uvc/uvc_camera.cpp:677-701 | Every candidate is MJPEG or YUYV, has a positive size, carries its best rate, and has scoreMeet = 1 exactly when maxFps >= desiredFps. Equal (f, w, h) means equal candidates. |
| Negotiation.CandidatesOfFormat | app/src/main/cpp/uvc/uvc_camera.cpp:678-700 | The per-format loop yields the candidates of that format's sizes, or of 1280x720 when none are enumerated. |
| Negotiation.CollectCandidates | app/src/main/cpp/uvc/uvc_camera.cpp:675-701 | MJPEG candidates come first, then YUYV: all candidates collected. |
| Negotiation.DedupeByKey | app/src/main/cpp/uvc/uvc_camera.cpp:703-710 | No two results share (f, w, h). Every result is an input. Every input key survives. |
| Negotiation.SortByPreference | app/src/main/cpp/uvc/uvc_camera.cpp:712-724 | The result is preference-sorted and is a permutation of the distinct-keyed input. |
| Negotiation.BuildCandidates | app/src/main/cpp/uvc/uvc_camera.cpp:673-727 | Exactly the collected candidates, without two entries sharing (f, w, h). Ordered: meeting the rate first, then larger area, then higher maxFps, then MJPEG first. |
| ModeSelect.SelectMode | app/src/main/cpp/uvc/uvc_camera.cpp:796-825 | The candidate loop computes Run from the empty best: the replacement rule and the early stop at a rate-meeting candidate with scoreMeet 1. |
| ModeSelect.RunChoosesAccepted | app/src/main/cpp/uvc/uvc_camera.cpp:796-830 | A format is chosen exactly when some trial's S_FMT succeeded. The chosen size, format and rate are those of one accepted trial. |
| ModeSelect.ShiftChoice | app/src/main/cpp/uvc/uvc_camera.cpp:796-825 | A choice among the later trials is a choice among all of them. |
| ModeSelect.RunMeetsIff | app/src/main/cpp/uvc/uvc_camera.cpp:807-823 | The best rate ends within 2 of the request exactly when some accepted trial's rate is. |
| ModeSelect.RunLastFmt | app/src/main/cpp/uvc/uvc_camera.cpp:805-825 | The last format S_FMT handed back is an accepted trial's whenever some trial was accepted, and is unchanged otherwise. |
| ModeSelect.Setup | app/src/main/cpp/uvc/uvc_camera.cpp:778-852 | Fails on an unopened node, and exactly then. Fails when no candidate is accepted, and exactly then. Fails when REQBUFS fails or grants fewer than 4 buffers. On success: at least 4 buffers; the published rate is positive and is either the request or an accepted trial's rate; the published format is the final S_FMT's answer, or, when that fails, an accepted trial's format (the last one the loop tried). |
| ModeSelect.FailedResetKeepsLastTrial | app/src/main/cpp/uvc/uvc_camera.cpp:827-838 | When the final S_FMT fails, the published format can differ from the chosen trial: 1920 x 1080 MJPEG is chosen, yet the later 640 x 480 YUYV trial's format is published. |
| ModeSelect.SetupMeets | app/src/main/cpp/uvc/uvc_camera.cpp:807-834 | When some accepted trial meets the request, the negotiated rate meets it too. |
| ModeString.FourccChars | app/src/main/cpp/uvc/uvc_camera.cpp:126-132 | Four characters, the fourcc's bytes lowest first. |
| ModeString.UntilNul | app/src/main/cpp/uvc/uvc_camera.cpp:133 | The longest NUL-free prefix. |
| ModeString.NatToDec | app/src/main/cpp/uvc/uvc_camera.cpp:1089 | std::to_string of a non-negative value is a non-empty run of decimal digits. |
| ModeString.DecRoundTrip | app/src/main/java/com/uzera/camcpp/UvcAction.kt:227-228 | Parsing the digits std::to_string prints gives back the number. |
| ModeString.TightIsSpaced | app/src/main/java/com/uzera/camcpp/UvcAction.kt:224-225 | Every match of (\d+)x(\d+) is also a match of (\d+)\s*x\s*(\d+), with the same groups. |
| ModeString.FallbackNeverFires | app/src/main/java/com/uzera/camcpp/UvcAction.kt:224-225 | When the first regex finds nothing, the fallback regex finds nothing either. |
| ModeString.UpdatedDims | app/src/main/java/com/uzera/camcpp/UvcAction.kt:223-233 | The dimensions either stay as they were or both become the first match's values. A change yields two positive 32-bit ints. |
| ModeString.TrimStart | app/src/main/java/com/uzera/camcpp/UvcAction.kt:234 | Trimming the start leaves a suffix that does not begin with whitespace. |
| ModeString.TrimEnd | app/src/main/java/com/uzera/camcpp/UvcAction.kt:234 | Trimming the end leaves a prefix that does not end with whitespace. |
| ModeString.FirstToken | app/src/main/java/com/uzera/camcpp/UvcAction.kt:234 | The first token is the longest whitespace-free prefix. |
| ModeString.ChosenModeShape | app/src/main/cpp/uvc/uvc_camera.cpp:1084-1090 | For a tag fourcc (four ASCII bytes, none NUL, digit or whitespace) and positive sizes the string is the tag, a space, w, "x", h. |
| ModeString.ChosenModeDims | app/src/main/java/com/uzera/camcpp/UvcAction.kt:223-233 | Parsing that string yields exactly (w, h). |
| ModeString.ChosenModeTag | app/src/main/java/com/uzera/camcpp/UvcAction.kt:234 | Its first token is exactly the four-character tag, and the string is not blank. |
| ModeString.ChosenModeRoundTrip | app/src/main/cpp/uvc/uvc_camera.cpp:1084-1090 | Round trip: chosenMode followed by the Kotlin parse recovers (w, h) and fourccToStr of an ASCII tag fourcc, for every positive Int size. |
| ModeString.KnownFourccs | app/src/main/cpp/uvc/uvc_camera.cpp:126-134 | MJPEG and YUYV print as "MJPG" and "YUYV" and are (ASCII) tag fourccs. |
| ModeString.NoDigitsKeepDims | app/src/main/java/com/uzera/camcpp/UvcAction.kt:223-233 | A string without digits parses to nothing and leaves the dimensions alone. |
| ModeString.NotAvailableKeepsDims | app/src/main/cpp/uvc/uvc_camera.cpp:1088 | The "n/a" of an idle driver leaves the dimensions alone. |
| DeviceScan.FirstCapture | app/src/main/cpp/uvc/uvc_camera.cpp:234-236 | The first node that opens and reports capture + streaming, or -1 when there is none. |
| DeviceScan.FirstUvc | app/src/main/cpp/uvc/uvc_camera.cpp:225-232 | The first such node whose driver starts with "uvcvide", or -1 when there is none. |
| DeviceScan.BestNodeIsCapture | app/src/main/cpp/uvc/uvc_camera.cpp:209-245 | The returned node is an opened capture node. A uvcvideo node wins whenever there is one. -1 exactly when no capture node exists. |
| DeviceScan.OpenedUpToUvc | app/src/main/cpp/uvc/uvc_camera.cpp:225-232 | When node i is the first uvcvideo node, the scan stops there, having opened exactly the nodes up to i that open. |
| DeviceScan.OpenedAll | app/src/main/cpp/uvc/uvc_camera.cpp:241-244 | Without a uvcvideo node, the fallback is the first capture node and every node that opens was opened. |
| DeviceScan.OpenBestNode | app/src/main/cpp/uvc/uvc_camera.cpp:209-245 | Returns BestNode, and closes every other opened descriptor exactly once, so at most one stays open. |
| Mailbox.NewestFrameWins | app/src/main/cpp/uvc/uvc_camera.cpp:944-949 | A publish overwrites any frame not yet taken. The decoder gets the newest frame. |
| Mailbox.DequeuedFrame | app/src/main/cpp/uvc/uvc_camera.cpp:932-949 | A frame is published exactly for a valid buffer index with a positive payload. It is the first bytesused bytes of that buffer. |
| Mailbox.ReplayPending | app/src/main/cpp/uvc/uvc_camera.cpp:944-972 | Over any sequence of publish, take and clear events, the slot is ready exactly when the last event was a publish, and then holds that frame. |
| Mailbox.DeliveredWerePublished | app/src/main/cpp/uvc/uvc_camera.cpp:958-973 | Every frame the decoder receives was published by the event just before its take. |
| Mailbox.FrameMailbox.OnDequeued | app/src/main/cpp/uvc/uvc_camera.cpp:932-949 | The slot after the capture side is Dequeued of the old slot. |
| Mailbox.FrameMailbox.TakeFrame | app/src/main/cpp/uvc/uvc_camera.cpp:963-973 | When stopped the slot is untouched. Otherwise the slot's bytes and the decoder's buffer are swapped and ready is cleared. |
| Mailbox.FrameMailbox.ClearSlot | app/src/main/cpp/uvc/uvc_camera.cpp:749-753 | Teardown empties the slot. |
| Render.RenderedShowsFrame | app/src/main/cpp/uvc/uvc_camera.cpp:493-497 | Every channel of every pixel in the top-left min(w,outW) x min(h,outH) area is the frame's byte. |
| Render.RenderedPadsBlack | app/src/main/cpp/uvc/uvc_camera.cpp:498-504 | Row bytes past the copied columns, and every row below the copied rows, are 0. |
| Render.RenderedRow | app/src/main/cpp/uvc/uvc_camera.cpp:496-504 | Buffer row y is frame row y in the copied columns and 0 elsewhere. |
| Render.CopyBytes | app/src/main/cpp/uvc/uvc_camera.cpp:497 | memcpy: exactly the n destination bytes are the source bytes. The rest is unchanged. |
| Render.ZeroBytes | app/src/main/cpp/uvc/uvc_camera.cpp:499-503 | memset 0: exactly the n destination bytes become 0. The rest is unchanged. |
| Render.CopyRow | app/src/main/cpp/uvc/uvc_camera.cpp:497-500 | One copied row becomes its rendered row, and nothing else changes. |
| Render.BlackRow | app/src/main/cpp/uvc/uvc_camera.cpp:503 | One row below the frame becomes black, and nothing else changes. |
| Render.CopyRows | app/src/main/cpp/uvc/uvc_camera.cpp:496-501 | The first min(h, outH) rows are rendered, and nothing after them changes. |
| Render.BlackRows | app/src/main/cpp/uvc/uvc_camera.cpp:502-504 | The remaining rows up to outH are black, and the earlier rows keep their rendering. |
| Render.RenderRgbaToWindow | app/src/main/cpp/uvc/uvc_camera.cpp:484-507 | Without a locked window nothing is written. Otherwise every byte of the outH x stride buffer is Rendered. Nothing past the buffer's outH rows changes. |
| BackCamera.Want | app/src/main/cpp/back/back_camera.cpp:284 | The target is max(60, desiredFps). |
| BackCamera.PairsLayout | app/src/main/cpp/back/back_camera.cpp:273-278 | Pair k is elements 2k and 2k+1. A trailing odd element is dropped. |
| BackCamera.ReadRanges | app/src/main/cpp/back/back_camera.cpp:271-278 | The reading loop yields those pairs, or nothing when the entry is missing or has fewer than two values. |
| BackCamera.Tier2 | app/src/main/cpp/back/back_camera.cpp:297-308 | Among ranges ending at want with 0 <= min <= want: the largest min, earliest on ties. |
| BackCamera.Tier3 | app/src/main/cpp/back/back_camera.cpp:311-326 | Among ranges containing want: the smallest max, earliest on ties. |
| BackCamera.Tier4 | app/src/main/cpp/back/back_camera.cpp:329-339 | The largest positive max, earliest on ties. |
| BackCamera.ChooseRangeIsAdvertised | app/src/main/cpp/back/back_camera.cpp:286-339 | The choice is an advertised range, or (0, 0) exactly when no max is positive. A range ending at want forces max = want. A range containing want forces max >= want. |
| BackCamera.ExactLoop | app/src/main/cpp/back/back_camera.cpp:287-294 | Tier 1: (want, want) when present, else nothing. |
| BackCamera.EndsAtWantLoop | app/src/main/cpp/back/back_camera.cpp:297-308 | The loop computes Tier2. |
| BackCamera.ContainsWantLoop | app/src/main/cpp/back/back_camera.cpp:311-326 | The loop computes Tier3. |
| BackCamera.HighestMaxLoop | app/src/main/cpp/back/back_camera.cpp:329-339 | The loop computes Tier4. |
| BackCamera.ChooseRangeLoops | app/src/main/cpp/back/back_camera.cpp:286-339 | The four loops, each run while nothing is chosen, yield ChooseRange. |
| BackCamera.ChooseAndApplyFpsRange | app/src/main/cpp/back/back_camera.cpp:261-355 | gChosenFps and the ranges written are those of ApplyRanges. |
| BackCamera.ChosenFpsZeroOrWant | app/src/main/cpp/back/back_camera.cpp:341-354 | gChosenFps is 0 or want. It is want exactly when some range has a positive max and the first write succeeds. The first write is an advertised range; a second write is (want, want). |
| BackCamera.FirstBackFacing | app/src/main/cpp/back/back_camera.cpp:100-108 | The first back-facing id, or -1. |
| BackCamera.PickBackCameraIdPrefer0 | app/src/main/cpp/back/back_camera.cpp:86-111 | "0" when it is back-facing. Otherwise the first back-facing id, or "" when there is none or the list cannot be read. |
| BackCamera.Start | app/src/main/cpp/back/back_camera.cpp:357-458 | Succeeds exactly when setup, the id, the plumbing, a chosen rate of at least 60 and the session all succeed, and then reports that rate. Below 60 it fails with the fps error. |
| BackCamera.StartGate | app/src/main/cpp/back/back_camera.cpp:432-439 | start passes the fps gate exactly when some range has a positive max and the first write succeeds. It then reports the target, whatever the chosen range's max. |
| BackCamera.ChoiceReachesWant | app/src/main/cpp/back/back_camera.cpp:286-339 | The chosen range reaches the target exactly when some advertised range does. |
| BackCamera.LowRangePassesGate | app/src/main/cpp/back/back_camera.cpp:329-352 | As written: with only a 15-30 range advertised, the 15-30 range is written, 60 is recorded, and start succeeds reporting 60. |
| BackCamera.CheckedGateNeedsReach | app/src/main/cpp/back/back_camera.cpp:432-439 | Corrected: when the target is recorded only for a range that reaches it, start passes the gate exactly when some range reaches the target and the first write succeeds. The range written then reaches the target. |
| StartGuard.NoSecondStart | app/src/main/java/com/uzera/camcpp/UvcAction.kt:137-143 | A start is dispatched exactly with a surface, permission and idle flags. It sets starting, and no second start follows until completion or stop. |
| StartGuard.StopIdempotent | app/src/main/java/com/uzera/camcpp/UvcAction.kt:164-171 | stop acts exactly on non-idle flags, always leaves them idle, and a second stop does nothing. |
| StartGuard.AsWrittenStopLost | app/src/main/java/com/uzera/camcpp/UvcAction.kt:148-151 | As written: start, stop, then a successful completion leaves the flags saying started after a native stop, and refuses the next start. |
| StartGuard.CorrectedStepConsistent | app/src/main/java/com/uzera/camcpp/UvcAction.kt:137-171 | With the corrected completion rule, every UI event keeps the flags consistent with the last queued native operation. |
| StartGuard.CorrectedAlwaysConsistent | app/src/main/java/com/uzera/camcpp/UvcAction.kt:137-171 | Every event sequence leaves the corrected guard consistent with the executor. |
| StartGuard.CorrectedKeepsStop | app/src/main/java/com/uzera/camcpp/UvcAction.kt:164-171 | A stop during a pending start is not undone by that start's completion. |
| UvcUi.RequestedGuard | app/src/main/java/com/uzera/camcpp/UvcAction.kt:137-143 | maybeStartExt dispatches exactly with a surface, permission and idle flags. It then sets starting, numbers the start, and changes nothing else. No second start is dispatched. |
| UvcUi.CompletedCaches | app/src/main/java/com/uzera/camcpp/UvcAction.kt:144-159 | After the completion: the flags hold the result; the mode cache holds the returned mode ("" on failure); the format cache holds its first token, or "" for a blank mode; the size changes only to positive 32-bit values. |
| UvcUi.CompletedWithChosenMode | app/src/main/java/com/uzera/camcpp/UvcAction.kt:146-155 | With the mode chosenMode prints, the buffer becomes exactly w x h and the format cache becomes the fourcc tag. |
| UvcUi.StoppedClears | app/src/main/java/com/uzera/camcpp/UvcAction.kt:164-171 | stopExt acts exactly when started or starting. It then clears the flags and both caches and keeps the size. Stopping twice equals stopping once. |
| UvcUi.StopBeatsLateCompletion | app/src/main/java/com/uzera/camcpp/UvcAction.kt:148-151 | Corrected: after a stop during a pending start, that start's completion changes nothing, and the next start is let through. |
| UvcUi.UvcAction.constructor | app/src/main/java/com/uzera/camcpp/UvcAction.kt:40-43 | Starts idle with empty caches and a 1920 x 1080 buffer. |
| UvcUi.UvcAction.MaybeStartExt | app/src/main/java/com/uzera/camcpp/UvcAction.kt:137-143 | The new state and the dispatch are Requested of the old state. The returned start number is the one the completion carries. |
| UvcUi.UvcAction.OnStartDone | app/src/main/java/com/uzera/camcpp/UvcAction.kt:148-160 | The completion on the UI thread is Finished: the caches and size as at 148-159, applied only for the latest pending start. That check is the corrected rule of the Findings table; the code applies every completion. |
| UvcUi.UvcAction.StopExt | app/src/main/java/com/uzera/camcpp/UvcAction.kt:164-171 | The new state and the dispatch of the native stop are Stopped of the old state. |
| UvcUi.UvcAction.UpdateExtBufFromModeString | app/src/main/java/com/uzera/camcpp/UvcAction.kt:223-235 | The size comes from UpdatedDims and the format cache from the first token. Nothing else changes. |
| MainUi.GuardsIndependent | app/src/main/java/com/uzera/camcpp/MainActivity.kt:441-496 | Each camera dispatches exactly with a surface, permission and idle flags, and never twice. A completion of the latest pending start sets that camera's flags to the result. Neither camera's operations change the other's flags. |
| MainUi.ExtCompletedSize | app/src/main/java/com/uzera/camcpp/MainActivity.kt:468-477 | A failed external start only clears the flags. Otherwise the size changes only to positive 32-bit values. |
| MainUi.ExtCompletedWithChosenMode | app/src/main/java/com/uzera/camcpp/MainActivity.kt:468-477 | With the mode chosenMode prints, the external buffer becomes exactly w x h, and the back camera is untouched. |
| MainUi.StopBeatsLateCompletion | app/src/main/java/com/uzera/camcpp/MainActivity.kt:449-451 | Corrected, for either camera: a stop during a pending start is not undone by its completion, and the next start is let through. |
| MainUi.OvalSize | app/src/main/java/com/uzera/camcpp/MainActivity.kt:273-293 | No size when the stage or its inner area is empty. Otherwise the size is at least 1. When a 1-pixel oval fits, the size is the largest diameter within the desired size, the inner height and half the width left by the gap. |
| MainUi.MainActivity.constructor | app/src/main/java/com/uzera/camcpp/MainActivity.kt:76-77 | Both cameras idle, external buffer 1280 x 720. |
| MainUi.MainActivity.MaybeStartBack | app/src/main/java/com/uzera/camcpp/MainActivity.kt:441-447 | The new state and the dispatch are BackRequested of the old state, and the start number is returned. |
| MainUi.MainActivity.OnBackStartDone | app/src/main/java/com/uzera/camcpp/MainActivity.kt:449-452 | The back completion is BackFinished: the flags set to the result, applied only for the latest pending start. That check is the corrected rule of the Findings table; the code applies every completion. |
| MainUi.MainActivity.MaybeStartExt | app/src/main/java/com/uzera/camcpp/MainActivity.kt:457-463 | The new state and the dispatch are ExtRequested of the old state, and the start number is returned. |
| MainUi.MainActivity.OnExtStartDone | app/src/main/java/com/uzera/camcpp/MainActivity.kt:470-478 | The external completion is ExtFinished: the flags set to the result and the size updated from a non-blank mode, applied only for the latest pending start. That check is the corrected rule of the Findings table; the code applies every completion. |
| MainUi.MainActivity.StopBack | app/src/main/java/com/uzera/camcpp/MainActivity.kt:484-489 | The back flags and the dispatch are Stop of the old flags. Nothing else changes. |
| MainUi.MainActivity.StopExt | app/src/main/java/com/uzera/camcpp/MainActivity.kt:491-496 | The external flags and the dispatch are Stop of the old flags. Nothing else changes. |
| MainUi.MainActivity.UpdateExtBufFromModeString | app/src/main/java/com/uzera/camcpp/MainActivity.kt:387-398 | Only the external buffer size changes, and it changes to UpdatedDims of the mode. |

## Left out

- Kernel I/O is not modelled: ioctls, `open`/`close`, `mmap`/`munmap` and `poll`. Their results are inputs. `Setup` folds QUERYBUF, mmap, QBUF and STREAMON into one `streamOk` flag. The crop ratio, the window geometry and frame-rate hint, and the frame buffer's reserved capacity are not modelled.
- applyControls' other writes are left out: power line frequency, auto-exposure priority, brightness, contrast, saturation, white balance, the hardware auto-exposure mode and autogain writes of either branch, and `trySetJpegQualityMax`. Their results are ignored by the source, and no modelled state depends on them.
- Threads, atomics, mutexes and condition variables are left out. The capture and decode loops are not modelled as threads. Instead, the mailbox is a sequence of publish/take/clear events in lock order (`Mailbox.Replay`), and each Kotlin completion is a separate UI-thread call.
- AutoExposure.AeController.MaybeAdjust: the compare-and-swap on the adjustment timestamp is a plain write. The single capture thread is the only caller, so the swap always succeeds.
- The frame-rate estimates are left out because they are floating point: `1e9/(ts-prev)` in the capture loop and in the back camera's capture callback.
- OpenCV is a foreign library and is left out: MJPEG decode, YUYV to RGBA conversion, cropping, seam feathering, unsharp masking.
- The window handling is partly left out. `trySetFrameRate` (dlopen/dlsym) is not modelled. Whether `ANativeWindow_lock` succeeded is the `locked` input of `Render.RenderRgbaToWindow`, and the unlock/post is not modelled.
- The Camera2 NDK session, request and callback plumbing is not modelled. These are foreign calls, folded into booleans of `BackCamera.Start`. `isBackFacing` answers are an input. The repeating request and the AF mode write are not modelled.
- Kotlin UI-only code is left out: the `Matrix` transforms (float geometry), the Choreographer overlay, lifecycle and USB-receiver callbacks, and SurfaceTexture callbacks (modelled only as the `hasSurface` input).
- `runSu`/`prepareUvcAccess` spawn processes and are left out. Their result is folded into the start job's `ok`.
- BackAction.kt, native-lib.cpp, the headers and build.gradle.kts are not part of this model.
- Controls.ExposureCapAbsForFps: uses the exact integer 650000 / max(1, fps). The source computes floor(1e6 / fps * 0.65) in double precision. The two can differ by one microsecond where the product falls just below an integer. The contract states only bounds that hold either way, apart from that last microsecond.
- AutoExposure.InitialExposure: `(int)((cap - min) * 0.25f)` is modelled as truncating division by 4. The two agree while the difference fits a float's 24-bit mantissa.
- AutoExposure.WritesStayInRange: the ceiling is stated only for exposure increases. A decrease that starts from an exposure read from the device above the ceiling can still land above it, and the source does not prevent that.
- Luma.AvgLumaYuyvSample: requires the buffer to hold the whole w x h frame. The source reads raw memory here; its one call (uvc_camera.cpp:939) is guarded by the `used >= gW*gH*2` test at uvc_camera.cpp:936-938, which meets that requirement.
- Luma.AvgLumaRgbaSample: requires the buffer to hold the whole w x h frame. The source reads raw memory here, and the function has no caller in the source, so no call site establishes that requirement.
- ModeString.UpdatedDims and ModeString.FirstToken: `\d` and `\s` are modelled as their ASCII classes. Android's regex engine may also match non-ASCII digits or spaces there; the model covers ASCII mode strings only, which is all chosenMode prints for a tag fourcc.
- Mailbox.Dequeued: requires the payload length to be at most the mapped buffer's length, which the kernel guarantees for `bytesused`.
- Negotiation.BuildCandidates: the final `std::sort` is not stable. The model sorts by insertion, and its contract states only the comparator order and the element set, so every tie order the source may produce satisfies it. The first sort with `std::unique` is modelled as an order-free de-duplication, because candidates with equal (f, w, h) are equal.
- 32-bit overflow is not modelled for w*h, offsets, strides and `y * stride` in the samplers and the window copy. Nor is it modelled for `v - base` in clampToRange (uvc_camera.cpp:176), or for `curGain - step`, `curExp - step` and `curExp + step` in the auto-exposure step (uvc_camera.cpp:449, 464, 470). All of these are computed in unbounded integers, so a control range spanning more than 2^31 is not modelled as the code computes it. The source does its area comparisons in `long long`, and unbounded integers match that. The `(int)` casts of V4L2 `__u32` fields are modelled explicitly (`Common.AsInt32`).
- The debug strings of `openBestNode` and `setupLocked`, and the last-error strings, are not modelled.
- UvcUi.UvcAction.OnStartDone: implements the corrected completion rule, applying a completion only for the latest pending start (each start is numbered by the added `extGen` field). UvcAction.kt:148-151 applies every completion unconditionally. That behaviour is modelled by `StartGuard.StepAsWritten` and exhibited by `StartGuard.AsWrittenStopLost`.
- MainUi.MainActivity.OnBackStartDone: implements the same corrected rule, with the added `backGen` field. MainActivity.kt:449-451 applies every completion unconditionally, as `StartGuard.StepAsWritten` models.
- MainUi.MainActivity.OnExtStartDone: implements the same corrected rule, with the added `extGen` field. MainActivity.kt:470-472 applies every completion unconditionally, as `StartGuard.StepAsWritten` models.
- The auto-exposure state after setup is the state the last tried trial's `applyControls` left, which need not be the chosen trial's. ModeSelect and AutoExposure are not combined into one model of setupLocked.
- MainUi.OvalSize: the stage sizes are taken in pixels. The dp-to-pixel rounding is done by the caller, and the float oval positions are left out. The float conversion of the inner width is exact below 2^24.

## Findings

| source | as written | input that shows it | evidently intended | confidence | as-written member | corrected member |
|---|---|---|---|---|---|---|
| app/src/main/java/com/uzera/camcpp/UvcAction.kt:148-151 | The start job's completion sets `extStarting = false` and `extStarted = ok` unconditionally. | maybeStartExt, then stopExt before the job's completion is posted, then the native start succeeds. The native stop runs after the start on the executor, yet the UI ends with `extStarted == true`, and every later maybeStartExt is refused. | A stop during a pending start wins: the completion of a start that is no longer the latest pending one is ignored. | not executed; high that the sequence is reachable, since stopExt runs on the UI thread while the job is queued | StartGuard.AsWrittenStopLost | UvcUi.StopBeatsLateCompletion |
| app/src/main/cpp/uvc/uvc_camera.cpp:540 | `isMjpeg` tests the published `gChosenFourcc`. setupLocked calls applyControls inside its candidate loop (805), while that is still 0: teardown cleared it (760) and it is published only after the loop (838). | Any MJPEG candidate on a camera with an exposure control. applyControls switches hardware AE to manual and arms the software controller, so the MJPEG branch (555-563) never runs. | The MJPEG test uses the format being tried (`fmt.fmt.pix.pixelformat`), so MJPEG keeps the device's own auto exposure, as the comment in that branch says. | not executed; high that the branch is dead, since every call site is in the loop | AutoExposure.SetupArmsSoftwareAe | AutoExposure.TrialFormatDecides |
| app/src/main/cpp/back/back_camera.cpp:329-352 | Tier 4 may write a range whose max is below the target, and `gChosenFps` still records the target. | Only (15, 30) advertised, desiredFps 60. The range 15-30 is written, 60 is recorded, and start passes its gate (434-439) and reports 60. | The gate refuses anything below 60, as the comments at 260 and 432 say. The target is recorded only for a range that reaches it. | not executed; medium, since the tier-4 comment admits 60 may not be guaranteed while the gate's comments say it is refused | BackCamera.LowRangePassesGate | BackCamera.CheckedGateNeedsReach |
| app/src/main/java/com/uzera/camcpp/MainActivity.kt:449-451 | The back and external completions set started to the job's result unconditionally (also lines 470-472). | maybeStartBack, then stopBack before the completion is posted, then a successful native start: `backStarted == true` after the native stop. | As above, for each camera. | not executed; high, same sequence | StartGuard.AsWrittenStopLost | MainUi.StopBeatsLateCompletion |

`StartGuard.StepAsWritten` models the guard as written, and `StartGuard.CorrectedAlwaysConsistent` proves that the corrected rule keeps the flags consistent with the executor over every event sequence. The controller classes `UvcUi.UvcAction` and `MainUi.MainActivity` implement the corrected rule: each dispatched start carries a number, and its completion is applied only while it is the latest start and that start is still pending. For the other two rows the operations keep the code as written: `AutoExposure.AeController.ApplyAeControls` tests the published format, and `BackCamera.ChooseAndApplyFpsRange` records the target after any successful first write. The corrected rules (`AutoExposure.ArmedBy` applied to the trial's format, `BackCamera.ApplyRangesChecked`) are stated beside them.
