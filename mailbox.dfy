/** The one-slot frame mailbox between the UVC capture thread and the decode
    thread (gFrameBytes / gFrameReady under gFrameLock in uvc_camera.cpp).
    Capture overwrites the slot with every dequeued frame, decode swaps the
    slot's bytes into its own buffer and clears the ready flag, and stop
    empties the slot. Older frames are dropped, never queued. */
module Mailbox {
  import opened Common

  /** The slot: its bytes and whether they hold a frame not yet taken. */
  datatype Slot = Slot(bytes: seq<byte>, ready: bool)

  const EmptySlot: Slot := Slot([], false)

  /** Capture publishes `frame`: resize to its length, copy it, set ready. */
  function Publish(s: Slot, frame: seq<byte>): Slot
  {
    Slot(frame, true)
  }

  /** Decode takes the slot: its bytes become the decoder's buffer, the
      decoder's old buffer is left in the slot, and ready is cleared. */
  function Take(s: Slot, local: seq<byte>): (Slot, seq<byte>)
  {
    (Slot(local, false), s.bytes)
  }

  /** Stop clears the slot. */
  function Clear(s: Slot): Slot
  {
    EmptySlot
  }

  /** The capture thread after VIDIOC_DQBUF: the frame is published only
      when the buffer index is one of the mapped buffers and the kernel
      reported a non-empty payload; then it is the first `used` bytes of
      that buffer. */
  function Dequeued(s: Slot, index: nat, bufs: seq<seq<byte>>, used: int): Slot
    requires index < |bufs| && used > 0 ==> used <= |bufs[index]|
  {
    if index < |bufs| && used > 0 then Publish(s, bufs[index][..used]) else s
  }

  /** Whatever the slot held, a publish leaves exactly the new frame ready:
      a frame not yet taken is dropped, and the stale bytes the decoder
      swapped in never reach it. */
  lemma NewestFrameWins(s: Slot, older: seq<byte>, frame: seq<byte>, local: seq<byte>)
    ensures Take(Publish(Publish(s, older), frame), local).1 == frame
    ensures Publish(Publish(s, older), frame) == Publish(EmptySlot, frame)
  {
  }

  /** A published frame is a non-empty prefix of the driver's buffer, and
      nothing is published for an out-of-range index or an empty payload. */
  lemma DequeuedFrame(s: Slot, index: nat, bufs: seq<seq<byte>>, used: int)
    requires index < |bufs| && used > 0 ==> used <= |bufs[index]|
    ensures index < |bufs| && used > 0 ==>
      Dequeued(s, index, bufs, used).ready && |Dequeued(s, index, bufs, used).bytes| == used > 0
      && Dequeued(s, index, bufs, used).bytes == bufs[index][..used]
    ensures !(index < |bufs| && used > 0) ==> Dequeued(s, index, bufs, used) == s
  {
  }

  /** The events on the slot, in lock order. */
  datatype Event = Published(frame: seq<byte>) | Taken(local: seq<byte>) | Cleared

  function Apply(s: Slot, e: Event): Slot
  {
    match e
    case Published(f) => Publish(s, f)
    case Taken(local) => Take(s, local).0
    case Cleared => Clear(s)
  }

  /** The slot after a sequence of events, starting empty. */
  function Replay(es: seq<Event>): Slot
  {
    if |es| == 0 then EmptySlot else Apply(Replay(es[..|es| - 1]), es[|es| - 1])
  }

  /** The frame the decoder would get next: the one the last event
      published, if the last event was a publish. */
  function Pending(es: seq<Event>): Option<seq<byte>>
  {
    if |es| > 0 && es[|es| - 1].Published? then Some(es[|es| - 1].frame) else None
  }

  /** The decoder is woken exactly when the last event published a frame,
      and then it receives that frame: a take or a clear consumes it, and
      every later publish replaces it. */
  lemma {:induction false} ReplayPending(es: seq<Event>)
    ensures Replay(es).ready <==> Pending(es).Some?
    ensures Replay(es).ready ==> Replay(es).bytes == Pending(es).value
  {
    if |es| > 0 {
      ReplayPending(es[..|es| - 1]);
    }
  }

  /** The decoder receives frames in the order they were published, each at
      most once: the frames of the Taken events that follow a publish. */
  function Delivered(es: seq<Event>): seq<seq<byte>>
  {
    if |es| == 0 then []
    else
      var prev := es[..|es| - 1];
      if es[|es| - 1].Taken? && Replay(prev).ready
      then Delivered(prev) + [Replay(prev).bytes]
      else Delivered(prev)
  }

  /** Every frame delivered was published by the event just before its take. */
  lemma {:induction false} DeliveredWerePublished(es: seq<Event>, k: int)
    requires 0 <= k < |Delivered(es)|
    ensures exists i :: 1 <= i < |es| && es[i].Taken? && es[i - 1] == Published(Delivered(es)[k])
  {
    var prev := es[..|es| - 1];
    ReplayPending(prev);
    if k < |Delivered(prev)| {
      DeliveredWerePublished(prev, k);
      var i :| 1 <= i < |prev| && prev[i].Taken? && prev[i - 1] == Published(Delivered(prev)[k]);
      assert es[i] == prev[i] && es[i - 1] == prev[i - 1];
    } else {
      assert Delivered(es)[k] == Replay(prev).bytes;
      assert es[|es| - 2] == prev[|prev| - 1];
    }
  }

  /** The slot as the two threads share it. */
  class FrameMailbox {
    var bytes: seq<byte>
    var ready: bool

    function State(): Slot
      reads this
    {
      Slot(bytes, ready)
    }

    constructor()
      ensures State() == EmptySlot
    {
      bytes, ready := [], false;
    }

    /** Capture side, under the lock (uvc_camera.cpp 932-949). */
    method OnDequeued(index: nat, bufs: seq<seq<byte>>, used: int)
      requires index < |bufs| && used > 0 ==> used <= |bufs[index]|
      modifies this
      ensures State() == Dequeued(old(State()), index, bufs, used)
    {
      if index < |bufs| && used > 0 {
        bytes := bufs[index][..used];
        ready := true;
      }
    }

    /** Decode side, once the wait returns: the thread was woken because the
        pipeline stopped or because a frame is ready. When stopped it leaves
        the slot alone; otherwise it swaps the slot into its buffer. */
    method TakeFrame(running: bool, local: seq<byte>) returns (stop: bool, frame: seq<byte>)
      requires !running || ready
      modifies this
      ensures stop == !running
      ensures stop ==> State() == old(State()) && frame == local
      ensures !stop ==> (State(), frame) == Take(old(State()), local)
    {
      if !running {
        return true, local;
      }
      frame := bytes;
      bytes := local;
      ready := false;
      stop := false;
    }

    /** The slot reset of teardownLocked (uvc_camera.cpp 749-753). */
    method ClearSlot()
      modifies this
      ensures State() == Clear(old(State()))
    {
      bytes, ready := [], false;
    }
  }
}
