/** The chosen-mode string: uvc::chosenMode formats "<fourcc> <w>x<h>" (or
    "n/a"), and the Kotlin controllers parse it back with the regular
    expressions (\d+)\s*x\s*(\d+) and (\d+)x(\d+) into texture-buffer
    dimensions, and take its first whitespace-separated token as the format
    tag. A byte is modelled by the character with its code point, which is
    what the JNI string conversion gives for ASCII bytes, so tags are
    restricted to ASCII fourccs. \d and \s are taken as their ASCII
    classes; the parse is modelled for ASCII input only, which is all that
    chosenMode produces for such a format. */
module ModeString {
  import opened Common

  // ---------------------------------------------------------------------
  // Formatting (uvc_camera.cpp)
  // ---------------------------------------------------------------------

  /** The four bytes of a fourcc, lowest first, as chars. */
  function FourccChars(f: uint32): (cs: seq<char>)
    ensures |cs| == 4
  {
    [(f % 256) as char, (f / 0x100 % 256) as char, (f / 0x1_0000 % 256) as char, (f / 0x100_0000 % 256) as char]
  }

  /** std::string(const char*): the characters before the first NUL. */
  function UntilNul(s: seq<char>): (r: seq<char>)
    ensures |r| <= |s| && r == s[..|r|]
    ensures forall i :: 0 <= i < |r| ==> r[i] != '\0'
    ensures |r| < |s| ==> s[|r|] == '\0'
  {
    if |s| == 0 || s[0] == '\0' then [] else [s[0]] + UntilNul(s[1..])
  }

  /** fourccToStr. */
  function FourccToStr(f: uint32): seq<char>
  {
    UntilNul(FourccChars(f))
  }

  function DigitChar(d: int): (c: char)
    requires 0 <= d < 10
    ensures IsDigit(c)
  {
    ('0' as int + d) as char
  }

  /** std::to_string of a non-negative value: decimal, no leading zeros. */
  function NatToDec(n: nat): (s: seq<char>)
    ensures |s| >= 1 && forall i :: 0 <= i < |s| ==> IsDigit(s[i])
  {
    if n < 10 then [DigitChar(n)] else NatToDec(n / 10) + [DigitChar(n % 10)]
  }

  /** std::to_string(int). */
  function IntToDec(x: int): seq<char>
  {
    if x < 0 then "-" + NatToDec(-x) else NatToDec(x)
  }

  /** uvc::chosenMode: "n/a" while any of fourcc, width and height is 0. */
  function ChosenMode(f: uint32, w: int, h: int): seq<char>
  {
    if f == 0 || w == 0 || h == 0 then "n/a"
    else FourccToStr(f) + " " + IntToDec(w) + "x" + IntToDec(h)
  }

  // ---------------------------------------------------------------------
  // Character classes
  // ---------------------------------------------------------------------

  predicate IsDigit(c: char) { '0' <= c <= '9' }

  /** The regex class \s: space, \t, \n, \x0B, \f, \r. */
  predicate IsRegexSpace(c: char)
  {
    c == ' ' || '\t' <= c <= '\r'
  }

  /** Kotlin's Char.isWhitespace, which String.trim and isNotBlank use:
      Java's isWhitespace or isSpaceChar. */
  predicate IsKotlinSpace(c: char)
  {
    c == ' ' || '\t' <= c <= '\r' || '\U{1C}' <= c <= '\U{1F}' || c == '\U{A0}' || c == '\U{1680}'
    || '\U{2000}' <= c <= '\U{200A}' || c == '\U{2028}' || c == '\U{2029}' || c == '\U{202F}'
    || c == '\U{205F}' || c == '\U{3000}'
  }

  // ---------------------------------------------------------------------
  // Regex matching
  // ---------------------------------------------------------------------

  /** The end of the run of digits starting at i. */
  function DigitRunEnd(s: seq<char>, i: nat): (j: nat)
    requires i <= |s|
    ensures i <= j <= |s| && (j == |s| || !IsDigit(s[j]))
    ensures forall k :: i <= k < j ==> IsDigit(s[k])
    decreases |s| - i
  {
    if i < |s| && IsDigit(s[i]) then DigitRunEnd(s, i + 1) else i
  }

  /** The end of the run of \s characters starting at i. */
  function SpaceRunEnd(s: seq<char>, i: nat): (j: nat)
    requires i <= |s|
    ensures i <= j <= |s| && (j == |s| || !IsRegexSpace(s[j]))
    ensures forall k :: i <= k < j ==> IsRegexSpace(s[k])
    decreases |s| - i
  {
    if i < |s| && IsRegexSpace(s[i]) then SpaceRunEnd(s, i + 1) else i
  }

  /** The two captured groups of a match. */
  datatype Groups = Groups(first: seq<char>, second: seq<char>)

  /** A match of (\d+)\s*x\s*(\d+) starting exactly at i. Backtracking never
      helps: a shorter digit or space run leaves a digit or a space where the
      next element needs an 'x' or a digit, so each run is taken whole. */
  function MatchSpaced(s: seq<char>, i: nat): Option<Groups>
    requires i <= |s|
  {
    var j := DigitRunEnd(s, i);
    var k := SpaceRunEnd(s, j);
    if j == i || k == |s| || s[k] != 'x' then None
    else
      var m := SpaceRunEnd(s, k + 1);
      var n := DigitRunEnd(s, m);
      if n == m then None else Some(Groups(s[i..j], s[m..n]))
  }

  /** A match of (\d+)x(\d+) starting exactly at i. */
  function MatchTight(s: seq<char>, i: nat): Option<Groups>
    requires i <= |s|
  {
    var j := DigitRunEnd(s, i);
    if j == i || j == |s| || s[j] != 'x' then None
    else
      var n := DigitRunEnd(s, j + 1);
      if n == j + 1 then None else Some(Groups(s[i..j], s[j + 1..n]))
  }

  /** Regex.find: the leftmost match at or after i. */
  function Find(s: seq<char>, i: nat, spaced: bool): Option<Groups>
    requires i <= |s|
    decreases |s| - i
  {
    if i == |s| then None
    else
      var m := if spaced then MatchSpaced(s, i) else MatchTight(s, i);
      if m.Some? then m else Find(s, i + 1, spaced)
  }

  /** Every match of the tight pattern is a match of the spaced one. */
  lemma TightIsSpaced(s: seq<char>, i: nat)
    requires i <= |s|
    ensures MatchTight(s, i).Some? ==> MatchSpaced(s, i) == MatchTight(s, i)
  {
    var j := DigitRunEnd(s, i);
    if MatchTight(s, i).Some? {
      assert SpaceRunEnd(s, j) == j;
      assert SpaceRunEnd(s, j + 1) == j + 1;
    }
  }

  /** The fallback regex of updateExtBufFromModeString never finds what
      the first one missed. */
  lemma {:induction false} FallbackNeverFires(s: seq<char>, i: nat)
    requires i <= |s|
    ensures Find(s, i, true).None? ==> Find(s, i, false).None?
    decreases |s| - i
  {
    if i < |s| {
      TightIsSpaced(s, i);
      FallbackNeverFires(s, i + 1);
    }
  }

  // ---------------------------------------------------------------------
  // Parsing (UvcAction.kt, MainActivity.kt)
  // ---------------------------------------------------------------------

  /** The value of a string of decimal digits. */
  function DecValue(ds: seq<char>): (v: nat)
    requires forall i :: 0 <= i < |ds| ==> IsDigit(ds[i])
  {
    if |ds| == 0 then 0
    else
      assert IsDigit(ds[|ds| - 1]);
      DecValue(ds[..|ds| - 1]) * 10 + (ds[|ds| - 1] as int - '0' as int)
  }

  /** String.toIntOrNull on a run of digits: null past Int.MAX_VALUE. */
  function ToIntOrNull(ds: seq<char>): Option<int>
  {
    if |ds| == 0 || exists i :: 0 <= i < |ds| && !IsDigit(ds[i]) then None
    else if DecValue(ds) <= Int32Max then Some(DecValue(ds))
    else None
  }

  /** The dimensions the first regex match (or the fallback's) yields, when
      both groups parse to positive Ints. */
  function ParsedDims(mode: seq<char>): Option<(int, int)>
  {
    var m1 := Find(mode, 0, true);
    var m := if m1.Some? then m1 else Find(mode, 0, false);
    if m.None? then None
    else
      var w, h := ToIntOrNull(m.value.first), ToIntOrNull(m.value.second);
      if w.Some? && h.Some? && w.value > 0 && h.value > 0 then Some((w.value, h.value)) else None
  }

  /** The buffer dimensions after updateExtBufFromModeString: both replaced
      together by the parsed ones, or both kept. */
  function UpdatedDims(mode: seq<char>, w: int, h: int): (d: (int, int))
    ensures d == (w, h) || (ParsedDims(mode).Some? && d == ParsedDims(mode).value)
    ensures d != (w, h) ==> 0 < d.0 <= Int32Max && 0 < d.1 <= Int32Max
  {
    match ParsedDims(mode)
    case Some(d) =>
      var m1 := Find(mode, 0, true);
      var m := if m1.Some? then m1 else Find(mode, 0, false);
      assert ToIntOrNull(m.value.first).Some? && ToIntOrNull(m.value.second).Some?;
      d
    case None => (w, h)
  }

  /** Kotlin String.trim. */
  function Trim(s: seq<char>): seq<char>
  {
    TrimEnd(TrimStart(s))
  }

  function TrimStart(s: seq<char>): (r: seq<char>)
    ensures |r| <= |s| && r == s[|s| - |r|..]
    ensures |r| > 0 ==> !IsKotlinSpace(r[0])
  {
    if |s| > 0 && IsKotlinSpace(s[0]) then TrimStart(s[1..]) else s
  }

  function TrimEnd(s: seq<char>): (r: seq<char>)
    ensures |r| <= |s| && r == s[..|r|]
    ensures |r| > 0 ==> !IsKotlinSpace(r[|r| - 1])
  {
    if |s| > 0 && IsKotlinSpace(s[|s| - 1]) then TrimEnd(s[..|s| - 1]) else s
  }

  /** split(Regex("\\s+")).firstOrNull().orEmpty(): the characters before
      the first \s (the split always has a first element). */
  function FirstToken(s: seq<char>): (t: seq<char>)
    ensures |t| <= |s| && t == s[..|t|]
    ensures forall i :: 0 <= i < |t| ==> !IsRegexSpace(t[i])
    ensures |t| < |s| ==> IsRegexSpace(s[|t|])
  {
    if |s| == 0 || IsRegexSpace(s[0]) then [] else [s[0]] + FirstToken(s[1..])
  }

  /** The format tag UvcAction caches. */
  function FmtToken(mode: seq<char>): seq<char>
  {
    FirstToken(Trim(mode))
  }

  /** String.isNotBlank. */
  predicate IsNotBlank(s: seq<char>)
  {
    exists i :: 0 <= i < |s| && !IsKotlinSpace(s[i])
  }

  // ---------------------------------------------------------------------
  // The round trip
  // ---------------------------------------------------------------------

  /** A fourcc whose four bytes are tag characters: ASCII, no NUL, no
      digit, no whitespace. */
  predicate TagFourcc(f: uint32)
  {
    forall i :: 0 <= i < 4 ==>
      FourccChars(f)[i] < '\U{80}' && FourccChars(f)[i] != '\0' && !IsDigit(FourccChars(f)[i]) && !IsKotlinSpace(FourccChars(f)[i])
  }

  /** std::to_string and the parse of its digits are inverse. */
  lemma {:induction false} DecRoundTrip(n: nat)
    ensures DecValue(NatToDec(n)) == n
  {
    if n >= 10 {
      var s := NatToDec(n);
      assert s[..|s| - 1] == NatToDec(n / 10);
      DecRoundTrip(n / 10);
    }
  }

  lemma DigitRunExact(s: seq<char>, i: nat, j: nat)
    requires i <= j <= |s| && (j == |s| || !IsDigit(s[j]))
    requires forall k :: i <= k < j ==> IsDigit(s[k])
    ensures DigitRunEnd(s, i) == j
    decreases j - i
  {
    if i < j {
      DigitRunExact(s, i + 1, j);
    }
  }

  lemma SkipToFirstDigit(s: seq<char>, i: nat, p: nat, spaced: bool)
    requires i <= p <= |s|
    requires forall k :: i <= k < p ==> !IsDigit(s[k])
    ensures Find(s, i, spaced) == Find(s, p, spaced)
    decreases p - i
  {
    if i < p {
      SkipToFirstDigit(s, i + 1, p, spaced);
    }
  }

  /** A string with no digit before p, a digit run from p to k, an 'x' at
      k and digits to the end: the first match spans all of it. */
  lemma FindAt(s: seq<char>, p: nat, k: nat)
    requires p < k < |s| - 1 && s[k] == 'x'
    requires forall i :: 0 <= i < p ==> !IsDigit(s[i])
    requires forall i :: p <= i < k ==> IsDigit(s[i])
    requires forall i :: k < i < |s| ==> IsDigit(s[i])
    ensures Find(s, 0, true) == Some(Groups(s[p..k], s[k + 1..|s|]))
  {
    DigitRunExact(s, p, k);
    assert IsDigit(s[k + 1]);
    NoSpaceRun(s, k);
    NoSpaceRun(s, k + 1);
    DigitRunExact(s, k + 1, |s|);
    var m := MatchSpaced(s, p);
    assert m == Some(Groups(s[p..k], s[k + 1..|s|]));
    assert Find(s, p, true) == m;
    SkipToFirstDigit(s, 0, p, true);
  }

  lemma NoSpaceRun(s: seq<char>, i: nat)
    requires i < |s| && (s[i] == 'x' || IsDigit(s[i]))
    ensures SpaceRunEnd(s, i) == i
  {
  }

  /** Where the parts of pre + W + "x" + H sit. */
  lemma ConcatLayout(pre: seq<char>, W: seq<char>, H: seq<char>)
    ensures var s := pre + W + "x" + H;
      |s| == |pre| + |W| + 1 + |H| && s[|pre| + |W|] == 'x'
    ensures var s := pre + W + "x" + H;
      forall j :: 0 <= j < |pre| ==> s[j] == pre[j]
    ensures var s := pre + W + "x" + H;
      forall j :: 0 <= j < |W| ==> s[|pre| + j] == W[j]
    ensures var s := pre + W + "x" + H;
      forall j :: 0 <= j < |H| ==> s[|pre| + |W| + 1 + j] == H[j]
  {
  }

  /** A copy of the digit string `ds` at offset p of s is a digit run there,
      and the slice it occupies is `ds`. */
  lemma DigitsAt(s: seq<char>, p: nat, ds: seq<char>)
    requires p + |ds| <= |s| && forall j :: 0 <= j < |ds| ==> s[p + j] == ds[j]
    requires forall j :: 0 <= j < |ds| ==> IsDigit(ds[j])
    ensures forall i :: p <= i < p + |ds| ==> IsDigit(s[i])
    ensures s[p..p + |ds|] == ds
  {
    forall i | p <= i < p + |ds| ensures IsDigit(s[i]) {
      assert s[p + (i - p)] == ds[i - p];
    }
    forall j | 0 <= j < |ds| ensures s[p..p + |ds|][j] == ds[j] {
      assert s[p..p + |ds|][j] == s[p + j];
    }
  }

  lemma NoDigitsBefore(s: seq<char>, pre: seq<char>)
    requires |pre| <= |s| && forall j :: 0 <= j < |pre| ==> s[j] == pre[j]
    requires forall j :: 0 <= j < |pre| ==> !IsDigit(pre[j])
    ensures forall i :: 0 <= i < |pre| ==> !IsDigit(s[i])
  {
  }

  /** In a string of the form pre + W + "x" + H, with no digit in pre and
      W, H non-empty runs of digits, the first match captures W and H. */
  lemma FindAfterPrefix(pre: seq<char>, W: seq<char>, H: seq<char>)
    requires forall i :: 0 <= i < |pre| ==> !IsDigit(pre[i])
    requires |W| > 0 && forall i :: 0 <= i < |W| ==> IsDigit(W[i])
    requires |H| > 0 && forall i :: 0 <= i < |H| ==> IsDigit(H[i])
    ensures Find(pre + W + "x" + H, 0, true) == Some(Groups(W, H))
  {
    var s := pre + W + "x" + H;
    var p, k := |pre|, |pre| + |W|;
    ConcatLayout(pre, W, H);
    NoDigitsBefore(s, pre);
    DigitsAt(s, p, W);
    DigitsAt(s, k + 1, H);
    assert s[p..k] == W;
    assert k + 1 + |H| == |s| && s[k + 1..|s|] == H;
    FindAt(s, p, k);
  }

  /** A token without whitespace followed by a space is the first token. */
  lemma {:induction false} TokenBeforeSpace(tag: seq<char>, rest: seq<char>)
    requires forall i :: 0 <= i < |tag| ==> !IsRegexSpace(tag[i])
    ensures FirstToken(tag + " " + rest) == tag
  {
    if |tag| > 0 {
      assert (tag + " " + rest)[1..] == tag[1..] + " " + rest;
      TokenBeforeSpace(tag[1..], rest);
    }
  }

  /** What chosenMode prints for a tag fourcc and positive dimensions. */
  lemma ChosenModeShape(f: uint32, w: int, h: int)
    requires TagFourcc(f) && 0 < w && 0 < h
    ensures FourccToStr(f) == FourccChars(f)
    ensures ChosenMode(f, w, h) == FourccChars(f) + " " + NatToDec(w) + "x" + NatToDec(h)
  {
    var tag := FourccChars(f);
    assert UntilNul(tag[3..]) == tag[3..];
    assert UntilNul(tag[2..]) == [tag[2]] + UntilNul(tag[3..]);
    assert UntilNul(tag[1..]) == [tag[1]] + UntilNul(tag[2..]);
    assert UntilNul(tag) == tag;
  }

  lemma ChosenModeDims(f: uint32, w: int, h: int)
    requires TagFourcc(f) && 0 < w <= Int32Max && 0 < h <= Int32Max
    ensures ParsedDims(ChosenMode(f, w, h)) == Some((w, h))
  {
    ChosenModeShape(f, w, h);
    var W, H := NatToDec(w), NatToDec(h);
    var pre := FourccChars(f) + " ";
    assert ChosenMode(f, w, h) == pre + W + "x" + H;
    FindAfterPrefix(pre, W, H);
    DecRoundTrip(w);
    DecRoundTrip(h);
    assert ToIntOrNull(W) == Some(w) && ToIntOrNull(H) == Some(h);
  }

  lemma ChosenModeTag(f: uint32, w: int, h: int)
    requires TagFourcc(f) && 0 < w && 0 < h
    ensures FmtToken(ChosenMode(f, w, h)) == FourccChars(f)
    ensures IsNotBlank(ChosenMode(f, w, h))
  {
    ChosenModeShape(f, w, h);
    var tag, rest := FourccChars(f), NatToDec(w) + "x" + NatToDec(h);
    var s := ChosenMode(f, w, h);
    assert s == tag + " " + rest;
    assert !IsKotlinSpace(s[0]);
    assert s[|s| - 1] == NatToDec(h)[|NatToDec(h)| - 1];
    assert TrimStart(s) == s;
    assert Trim(s) == s;
    TokenBeforeSpace(tag, rest);
  }

  /** Parsing what chosenMode prints recovers the dimensions and the tag,
      for every positive Int width and height and every tag fourcc. */
  lemma ChosenModeRoundTrip(f: uint32, w: int, h: int)
    requires TagFourcc(f) && 0 < w <= Int32Max && 0 < h <= Int32Max
    ensures ParsedDims(ChosenMode(f, w, h)) == Some((w, h))
    ensures UpdatedDims(ChosenMode(f, w, h), 0, 0) == (w, h)
    ensures FourccToStr(f) == FourccChars(f) && FmtToken(ChosenMode(f, w, h)) == FourccToStr(f)
    ensures IsNotBlank(ChosenMode(f, w, h))
  {
    ChosenModeShape(f, w, h);
    ChosenModeDims(f, w, h);
    ChosenModeTag(f, w, h);
  }

  /** The two formats the driver asks for print as their tags and are tag
      fourccs. */
  lemma KnownFourccs()
    ensures FourccToStr(0x4750_4A4D) == "MJPG" && TagFourcc(0x4750_4A4D)
    ensures FourccToStr(0x5659_5559) == "YUYV" && TagFourcc(0x5659_5559)
  {
    assert FourccChars(0x4750_4A4D) == "MJPG";
    assert FourccChars(0x5659_5559) == "YUYV";
    assert UntilNul("MJPG"[3..]) == "G";
    assert UntilNul("YUYV"[3..]) == "V";
  }

  /** A string without digits, such as the "n/a" of an idle driver, leaves
      the dimensions alone. */
  lemma NoDigitsKeepDims(mode: seq<char>, w: int, h: int)
    requires forall i :: 0 <= i < |mode| ==> !IsDigit(mode[i])
    ensures ParsedDims(mode) == None && UpdatedDims(mode, w, h) == (w, h)
  {
    SkipToFirstDigit(mode, 0, |mode|, true);
    SkipToFirstDigit(mode, 0, |mode|, false);
  }

  lemma NotAvailableKeepsDims(w: int, h: int)
    ensures UpdatedDims("n/a", w, h) == (w, h)
  {
    NoDigitsKeepDims("n/a", w, h);
  }
}
