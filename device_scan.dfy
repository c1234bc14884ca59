/** openBestNode (uvc_camera.cpp): the scan of /dev/video0 .. /dev/video63
    for a capture node, preferring the uvcvideo driver. Each node's probe
    result is an input; a descriptor is identified with the index of the node
    it was opened on. */
module DeviceScan {

  /** The number of /dev/video<i> nodes scanned. */
  const NodeCount: int := 64

  /** What probing one node yields: whether open() succeeded, whether
      VIDIOC_QUERYCAP succeeded and reported both video capture and
      streaming, and the driver name it reported. */
  datatype Probe = Probe(opens: bool, captureStreaming: bool, driver: seq<char>)

  predicate IsCapture(p: Probe)
  {
    p.opens && p.captureStreaming
  }

  /** strncmp(driver, "uvcvideo", 7) == 0: the name starts with "uvcvide". */
  predicate IsUvcDriver(d: seq<char>)
  {
    |d| >= 7 && d[..7] == "uvcvide"
  }

  predicate IsUvc(p: Probe)
  {
    IsCapture(p) && IsUvcDriver(p.driver)
  }

  /** The first capture node, or -1. */
  function FirstCapture(ps: seq<Probe>): (r: int)
    ensures -1 <= r < |ps|
    ensures r >= 0 ==> IsCapture(ps[r]) && forall j :: 0 <= j < r ==> !IsCapture(ps[j])
    ensures r == -1 ==> forall j :: 0 <= j < |ps| ==> !IsCapture(ps[j])
  {
    if |ps| == 0 then -1
    else
      var r := FirstCapture(ps[..|ps| - 1]);
      if r >= 0 then r else if IsCapture(ps[|ps| - 1]) then |ps| - 1 else -1
  }

  /** The first capture node with the uvcvideo driver, or -1. */
  function FirstUvc(ps: seq<Probe>): (r: int)
    ensures -1 <= r < |ps|
    ensures r >= 0 ==> IsUvc(ps[r]) && forall j :: 0 <= j < r ==> !IsUvc(ps[j])
    ensures r == -1 ==> forall j :: 0 <= j < |ps| ==> !IsUvc(ps[j])
  {
    if |ps| == 0 then -1
    else
      var r := FirstUvc(ps[..|ps| - 1]);
      if r >= 0 then r else if IsUvc(ps[|ps| - 1]) then |ps| - 1 else -1
  }

  /** The node openBestNode returns: the first uvcvideo capture node, else
      the first capture node, else -1. */
  function BestNode(ps: seq<Probe>): int
  {
    var u := FirstUvc(ps);
    if u >= 0 then u else FirstCapture(ps)
  }

  /** The nodes opened during the scan: those that open before the scan
      stops, which it does at the first uvcvideo node. */
  function Opened(ps: seq<Probe>): set<int>
  {
    var stop := if FirstUvc(ps) >= 0 then FirstUvc(ps) + 1 else |ps|;
    set i | 0 <= i < stop && ps[i].opens
  }

  /** The returned node is a capture node that was opened; a uvcvideo node
      wins whenever there is one, and -1 means no capture node exists. */
  lemma BestNodeIsCapture(ps: seq<Probe>)
    ensures BestNode(ps) >= 0 ==> IsCapture(ps[BestNode(ps)]) && BestNode(ps) in Opened(ps)
    ensures (exists j :: 0 <= j < |ps| && IsUvc(ps[j])) ==> IsUvc(ps[BestNode(ps)])
    ensures BestNode(ps) == -1 <==> forall j :: 0 <= j < |ps| ==> !IsCapture(ps[j])
  {
    if FirstUvc(ps) < 0 && FirstCapture(ps) >= 0 {
      assert FirstCapture(ps) in Opened(ps);
    }
  }

  /** When node i is the first uvcvideo node, the scan opens exactly the
      nodes up to and including i that open. */
  lemma OpenedUpToUvc(ps: seq<Probe>, i: int)
    requires 0 <= i < |ps| && IsUvc(ps[i])
    requires forall j :: 0 <= j < i ==> !IsUvc(ps[j])
    ensures FirstUvc(ps) == i && BestNode(ps) == i
    ensures forall k :: k in Opened(ps) <==> 0 <= k <= i && ps[k].opens
  {
  }

  /** Without a uvcvideo node the scan opens every node that opens. */
  lemma OpenedAll(ps: seq<Probe>)
    requires forall j :: 0 <= j < |ps| ==> !IsUvc(ps[j])
    ensures FirstUvc(ps) == -1 && BestNode(ps) == FirstCapture(ps)
    ensures forall k :: k in Opened(ps) <==> 0 <= k < |ps| && ps[k].opens
  {
  }

  /** openBestNode: returns BestNode and closes every other descriptor it
      opened, each once, so at most one stays open. */
  method OpenBestNode(ps: seq<Probe>) returns (fd: int, closed: seq<int>)
    requires |ps| == NodeCount
    ensures fd == BestNode(ps)
    ensures forall k :: k in closed <==> k in Opened(ps) && k != fd
    ensures forall i, j :: 0 <= i < j < |closed| ==> closed[i] != closed[j]
  {
    var fallback := -1;
    closed := [];
    var i := 0;
    while i < |ps|
      invariant 0 <= i <= |ps|
      invariant forall j :: 0 <= j < i ==> !IsUvc(ps[j])
      invariant fallback == FirstCapture(ps[..i])
      invariant forall k :: k in closed <==> 0 <= k < i && ps[k].opens && k != fallback
      invariant forall a, b :: 0 <= a < b < |closed| ==> closed[a] != closed[b]
    {
      assert ps[..i + 1][..i] == ps[..i];
      if !ps[i].opens {
        i := i + 1;
        continue;
      }
      if !ps[i].captureStreaming {
        closed := closed + [i];
        i := i + 1;
        continue;
      }
      if IsUvcDriver(ps[i].driver) {
        if fallback >= 0 {
          closed := closed + [fallback];
          fallback := -1;
        }
        fd := i;
        OpenedUpToUvc(ps, i);
        return;
      }
      if fallback < 0 {
        fallback := i;
      } else {
        closed := closed + [i];
      }
      i := i + 1;
    }
    assert ps[..i] == ps;
    OpenedAll(ps);
    fd := fallback;
  }
}
