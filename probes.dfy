/**
 * The two settings probes of a device session (`tryGetOpenShockJsonConfig`
 * and `tryGetPiShockTermInfo`): each polls the device on an interval, gathers
 * what the device prints into a buffer, and settles once the buffer holds a
 * complete frame, or with `null` when its timeout fires (a poll every 1000 ms,
 * a timeout after 10000 ms). Timers and the serial stream are events here, so
 * those durations appear only as the order of events; the frame patterns are written out, and
 * `JSON.parse` is a function the probe is given.
 */
module Probes {
  import opened Base
  import opened Json
  import opened Records
  import opened Commands

  /** Printed by OpenShock firmware before its configuration. */
  const ConfigMarker := "$SYS$|Response|JsonConfig|"
  /** Printed by PiShock firmware before its terminal information. */
  const InfoMarker := "TERMINALINFO"
  /** The key whose number ends a terminal information frame. */
  const OwnerKey := "ownerId\":"

  datatype Kind = ConfigProbe | InfoProbe
  {
    /** The text whose presence makes the listener try the pattern. */
    function Marker(): string
    {
      match this
      case ConfigProbe => ConfigMarker
      case InfoProbe => InfoMarker
    }

    /** The look-behind of the frame pattern. */
    function Lookbehind(): string
    {
      match this
      case ConfigProbe => "JsonConfig|"
      case InfoProbe => "TERMINALINFO: "
    }

    /** What the firmware prints right before a frame. */
    function Lead(): string
    {
      match this
      case ConfigProbe => ConfigMarker
      case InfoProbe => InfoMarker + ": "
    }

    /** The request sent on every tick of the interval. */
    function Poll(): Outgoing
    {
      match this
      case ConfigProbe => Text("jsonconfig")
      case InfoProbe => CommandObject(NoValuesCommand(Info))
    }

    /** The firmware family that answers this probe. */
    function Family(): BoardFirmware
    {
      match this
      case ConfigProbe => OpenShock
      case InfoProbe => PiShock
    }
  }

  // ---------------------------------------------------------------------------
  // The frame patterns
  //   OpenShock: /(?<=JsonConfig\|)\{.*\}\}/
  //   PiShock:   /(?<=TERMINALINFO: )\{.*ownerId":\d+\}/
  // `.` matches anything but a line terminator and `.*` is greedy, so a frame
  // ends at the last place in its line where the tail of the pattern fits.

  /** The characters `.` matches. */
  predicate LineChar(c: char)
  {
    c != '\n' && c != '\r' && c != 0x2028 as char && c != 0x2029 as char
  }

  /** The end of the line that contains position `i`. */
  function LineEnd(s: string, i: nat): (e: nat)
    requires i <= |s|
    ensures i <= e <= |s|
    ensures forall k :: i <= k < e ==> LineChar(s[k])
    ensures e < |s| ==> !LineChar(s[e])
    decreases |s| - i
  {
    if i < |s| && LineChar(s[i]) then LineEnd(s, i + 1) else i
  }

  /** `}}` comes just before position `e`. */
  predicate ClosesAt(s: string, e: nat)
  {
    2 <= e <= |s| && s[e - 2] == '}' && s[e - 1] == '}'
  }

  /** The largest end `e` in `[lo, hi]` with `}}` just before it. */
  function LastClose(s: string, lo: nat, hi: nat): (r: Option<nat>)
    requires 2 <= lo && hi <= |s|
    ensures r.Some? ==> lo <= r.value <= hi && ClosesAt(s, r.value)
    ensures r.Some? ==> forall e :: r.value < e <= hi ==> !ClosesAt(s, e)
    ensures r.None? ==> forall e :: lo <= e <= hi ==> !ClosesAt(s, e)
    decreases hi
  {
    if hi < lo then None
    else if ClosesAt(s, hi) then Some(hi)
    else
      var r := LastClose(s, lo, hi - 1);
      LastCloseStep(s, lo, hi, r);
      r
  }

  /** Extending the range by an end `hi` without `}}` before it keeps the answer. */
  lemma LastCloseStep(s: string, lo: nat, hi: nat, r: Option<nat>)
    requires 2 <= lo <= hi <= |s| && !ClosesAt(s, hi)
    requires r.Some? ==> forall e :: r.value < e <= hi - 1 ==> !ClosesAt(s, e)
    requires r.None? ==> forall e :: lo <= e <= hi - 1 ==> !ClosesAt(s, e)
    ensures r.Some? ==> forall e :: r.value < e <= hi ==> !ClosesAt(s, e)
    ensures r.None? ==> forall e :: lo <= e <= hi ==> !ClosesAt(s, e)
  {
  }

  /** The end of `ownerId":\d+\}` when it starts at `q`. */
  function OwnerEnd(s: string, q: nat): (r: Option<nat>)
    requires q <= |s|
    ensures r.Some? ==> q + |OwnerKey| < r.value <= |s| && LiteralAt(s, q, OwnerKey) && s[r.value - 1] == '}'
    ensures r.Some? ==> forall k :: q <= k < r.value ==> LineChar(s[k])
  {
    if !LiteralAt(s, q, OwnerKey) then None
    else
      var m := q + |OwnerKey|;
      var d := DigitRun(s, m);
      if d == 0 || m + d >= |s| || s[m + d] != '}' then None
      else
        assert forall k :: q <= k < m ==> s[k] == OwnerKey[k - q];
        Some(m + d + 1)
  }

  /** The largest start in `[lo, hi]` where the tail `ownerId":\d+\}` fits. */
  function LastOwner(s: string, lo: nat, hi: nat): (r: Option<nat>)
    requires hi <= |s|
    ensures r.Some? ==> lo <= r.value <= hi && OwnerEnd(s, r.value).Some?
    ensures r.Some? ==> forall q :: r.value < q <= hi ==> OwnerEnd(s, q).None?
    ensures r.None? ==> forall q :: lo <= q <= hi ==> OwnerEnd(s, q).None?
    decreases hi
  {
    if hi < lo then None
    else if OwnerEnd(s, hi).Some? then Some(hi)
    else if hi == 0 then None
    else
      var r := LastOwner(s, lo, hi - 1);
      LastOwnerStep(s, lo, hi, r);
      r
  }

  /** Extending the range by a start `hi` where nothing fits keeps the answer. */
  lemma LastOwnerStep(s: string, lo: nat, hi: nat, r: Option<nat>)
    requires 0 < hi <= |s| && OwnerEnd(s, hi).None?
    requires r.Some? ==> forall q :: r.value < q <= hi - 1 ==> OwnerEnd(s, q).None?
    requires r.None? ==> forall q :: lo <= q <= hi - 1 ==> OwnerEnd(s, q).None?
    ensures r.Some? ==> forall q :: r.value < q <= hi ==> OwnerEnd(s, q).None?
    ensures r.None? ==> forall q :: lo <= q <= hi ==> OwnerEnd(s, q).None?
  {
  }

  /** Where a frame starting with the `{` at `p` ends. */
  function FrameEnd(kind: Kind, s: string, p: nat): (r: Option<nat>)
    requires p < |s|
    ensures r.Some? ==> p + 3 <= r.value <= |s|
  {
    match kind
    case ConfigProbe => LastClose(s, p + 3, LineEnd(s, p + 1))
    case InfoProbe =>
      match LastOwner(s, p + 1, LineEnd(s, p + 1))
      case None => None
      case Some(q) => OwnerEnd(s, q)
  }

  /**
   * A frame ends at the last place on the line of its `{` where the tail of
   * the pattern fits: the last `}}` for a configuration, the last start of
   * `ownerId":\d+\}` for terminal information; there is no frame when the
   * tail fits nowhere on that line.
   */
  lemma FrameEndIsLastTail(kind: Kind, s: string, p: nat)
    requires p < |s|
    ensures var r, line := FrameEnd(kind, s, p), LineEnd(s, p + 1);
      && (r.Some? ==> r.value <= line)
      && (kind == ConfigProbe && r.Some? ==> ClosesAt(s, r.value) && forall e :: r.value < e <= line ==> !ClosesAt(s, e))
      && (kind == ConfigProbe ==> (r.None? <==> forall e :: p + 3 <= e <= line ==> !ClosesAt(s, e)))
      && (kind == InfoProbe ==> (r.None? <==> forall q :: p + 1 <= q <= line ==> OwnerEnd(s, q).None?))
  {
    var line := LineEnd(s, p + 1);
    if kind == InfoProbe {
      match LastOwner(s, p + 1, line)
      case None =>
      case Some(q) => OwnerInSlice(s, p, q, OwnerEnd(s, q).value);
    }
  }

  /** The terminal information frame ends where the tail starting at the last fitting position ends. */
  lemma InfoFrameEndIsLastOwner(s: string, p: nat, q: nat)
    requires p < |s| && p + 1 <= q <= LineEnd(s, p + 1) && OwnerEnd(s, q).Some?
    requires forall x :: q < x <= LineEnd(s, p + 1) ==> OwnerEnd(s, x).None?
    ensures FrameEnd(InfoProbe, s, p) == OwnerEnd(s, q)
  {
    var r := LastOwner(s, p + 1, LineEnd(s, p + 1));
    assert r == Some(q);
  }

  /** The look-behind ends at `p` and `p` holds `{`. */
  predicate OpensAt(kind: Kind, s: string, p: nat)
  {
    var lb := kind.Lookbehind();
    |lb| <= p < |s| && s[p - |lb|..p] == lb && s[p] == '{'
  }

  /** What a matched frame looks like. */
  predicate FrameShape(kind: Kind, f: string)
  {
    && |f| >= 3 && f[0] == '{' && f[|f| - 1] == '}'
    && (forall k :: 0 <= k < |f| ==> LineChar(f[k]))
    && (kind == ConfigProbe ==> f[|f| - 2] == '}')
    && (kind == InfoProbe ==> Contains(f, OwnerKey))
  }

  /** The frame whose `{` is at position `p`, if the pattern matches there. */
  function FrameAt(kind: Kind, s: string, p: nat): Option<string>
    requires p <= |s|
  {
    if !OpensAt(kind, s, p) then None
    else
      match FrameEnd(kind, s, p)
      case None => None
      case Some(e) => Some(s[p..e])
  }

  /** A match at `p` has the frame's shape and comes right after the look-behind. */
  lemma FrameAtSound(kind: Kind, s: string, p: nat)
    requires p <= |s|
    ensures FrameAt(kind, s, p).Some? ==>
      var f := FrameAt(kind, s, p).value;
      FrameShape(kind, f) && Contains(s, kind.Lookbehind() + f)
  {
    if FrameAt(kind, s, p).Some? {
      FrameAtShape(kind, s, p, FrameEnd(kind, s, p).value);
    }
  }

  /**
   * The pattern matches at `p` exactly when the look-behind ends at `p`, `p`
   * holds `{` and the tail fits on its line; the frame then runs from `p` to
   * the end `FrameEnd` finds.
   */
  lemma FrameAtIsSlice(kind: Kind, s: string, p: nat)
    requires p <= |s|
    ensures FrameAt(kind, s, p).Some? <==> OpensAt(kind, s, p) && FrameEnd(kind, s, p).Some?
    ensures FrameAt(kind, s, p).Some? ==> FrameAt(kind, s, p).value == s[p..FrameEnd(kind, s, p).value]
  {
  }

  lemma FrameAtShape(kind: Kind, s: string, p: nat, e: nat)
    requires |kind.Lookbehind()| <= p < |s| && s[p - |kind.Lookbehind()|..p] == kind.Lookbehind() && s[p] == '{'
    requires FrameEnd(kind, s, p) == Some(e)
    ensures FrameShape(kind, s[p..e]) && Contains(s, kind.Lookbehind() + s[p..e])
  {
    var lb := kind.Lookbehind();
    SliceShape(kind, s, p, e);
    assert Contains(s, lb + s[p..e]) by {
      SliceJoin(s, p - |lb|, p, e);
      ContainsSlice(s, p - |lb|, e);
    }
  }

  lemma SliceShape(kind: Kind, s: string, p: nat, e: nat)
    requires p < |s| && s[p] == '{' && FrameEnd(kind, s, p) == Some(e)
    ensures FrameShape(kind, s[p..e])
  {
    var f := s[p..e];
    if kind == ConfigProbe {
      ConfigEndFacts(s, p, e);
    } else {
      InfoEndFacts(s, p, e);
    }
    assert forall k :: 0 <= k < |f| ==> f[k] == s[p + k];
  }

  lemma ContainsSlice(s: string, a: nat, e: nat)
    requires a <= e <= |s|
    ensures Contains(s, s[a..e])
  {
    assert s[a..e] <= s[a..];
    ContainsAt(s, s[a..e], a);
  }

  lemma ConfigEndFacts(s: string, p: nat, e: nat)
    requires p < |s| && FrameEnd(ConfigProbe, s, p) == Some(e)
    ensures p + 3 <= e && s[e - 2] == '}' && s[e - 1] == '}'
    ensures forall k :: p + 1 <= k < e ==> LineChar(s[k])
  {
    var line := LineEnd(s, p + 1);
    assert e <= line;
  }

  lemma InfoEndFacts(s: string, p: nat, e: nat)
    requires p < |s| && FrameEnd(InfoProbe, s, p) == Some(e)
    ensures p + 3 <= e && s[e - 1] == '}'
    ensures forall k :: p + 1 <= k < e ==> LineChar(s[k])
    ensures Contains(s[p..e], OwnerKey)
  {
    var line := LineEnd(s, p + 1);
    var q := LastOwner(s, p + 1, line).value;
    OwnerInSlice(s, p, q, e);
  }

  lemma OwnerInSlice(s: string, p: nat, q: nat, e: nat)
    requires p + 1 <= q <= |s| && q <= LineEnd(s, p + 1) && OwnerEnd(s, q) == Some(e)
    ensures s[e - 1] == '}'
    ensures forall k :: p + 1 <= k < e ==> LineChar(s[k])
    ensures Contains(s[p..e], OwnerKey)
  {
    assert LiteralAt(s, q, OwnerKey) && q + |OwnerKey| < e <= |s|;
    var a, b := q - p, q - p + |OwnerKey|;
    SliceOfSlice(s, p, e, a, b);
    ContainsLiteral(s[p..e], a, OwnerKey);
  }

  /** The leftmost frame at or after position `p`. */
  function FindFrame(kind: Kind, s: string, p: nat): Option<string>
    requires p <= |s|
    decreases |s| - p
  {
    if FrameAt(kind, s, p).Some? then FrameAt(kind, s, p)
    else if p == |s| then None
    else FindFrame(kind, s, p + 1)
  }

  /** The pattern matches at no position in `[i, x)`. */
  predicate NoFrameBefore(kind: Kind, s: string, i: nat, x: nat)
    requires x <= |s|
  {
    forall y :: i <= y < x ==> FrameAt(kind, s, y).None?
  }

  /** The pattern tried at each position of `s`. */
  function FrameAtOf(kind: Kind, s: string): nat -> Option<string>
  {
    (x: nat) => if x <= |s| then FrameAt(kind, s, x) else None
  }

  /** The search from `p` is the left-to-right scan of the pattern over the positions from `p` on. */
  lemma {:induction false} FindFrameScans(kind: Kind, s: string, p: nat)
    requires p <= |s|
    ensures FindFrame(kind, s, p) == Leftmost(FrameAtOf(kind, s), p, |s|)
    decreases |s| - p
  {
    assert FrameAtOf(kind, s)(p) == FrameAt(kind, s, p);
    if FrameAt(kind, s, p).None? && p < |s| {
      FindFrameScans(kind, s, p + 1);
    }
  }

  /** The search from `i` finds nothing exactly when the pattern matches nowhere from `i` on. */
  lemma FindFrameNone(kind: Kind, s: string, i: nat)
    requires i <= |s|
    ensures FindFrame(kind, s, i).None? <==> forall x :: i <= x <= |s| ==> FrameAt(kind, s, x).None?
  {
    var f := FrameAtOf(kind, s);
    FindFrameScans(kind, s, i);
    LeftmostNone(f, i, |s|);
    assert forall x :: i <= x <= |s| ==> f(x) == FrameAt(kind, s, x);
  }

  /** The search from `i` stops at the first position `x` where the pattern matches. */
  lemma FindFrameFirst(kind: Kind, s: string, i: nat, x: nat)
    requires i <= x <= |s| && FrameAt(kind, s, x).Some? && NoFrameBefore(kind, s, i, x)
    ensures FindFrame(kind, s, i) == FrameAt(kind, s, x)
  {
    var f := FrameAtOf(kind, s);
    FindFrameScans(kind, s, i);
    assert forall y :: i <= y <= x ==> f(y) == FrameAt(kind, s, y);
    LeftmostFirst(f, i, x, |s|);
  }

  /** What the search from `p` finds has the frame's shape and comes right after the look-behind. */
  lemma {:induction false} FindFrameSound(kind: Kind, s: string, p: nat)
    requires p <= |s|
    ensures FindFrame(kind, s, p).Some? ==>
      var f := FindFrame(kind, s, p).value;
      FrameShape(kind, f) && Contains(s, kind.Lookbehind() + f)
    decreases |s| - p
  {
    FrameAtSound(kind, s, p);
    if FrameAt(kind, s, p).None? && p < |s| {
      FindFrameSound(kind, s, p + 1);
    }
  }

  /** `data.match(pattern)`: the first frame in the buffer. */
  function Frame(kind: Kind, s: string): (r: Option<string>)
    ensures r.Some? ==> FrameShape(kind, r.value) && Contains(s, kind.Lookbehind() + r.value)
  {
    FindFrameSound(kind, s, 0);
    FindFrame(kind, s, 0)
  }

  /**
   * `String.match` returns the frame at the leftmost position where the
   * pattern matches, and nothing exactly when it matches nowhere.
   */
  lemma FrameIsLeftmost(kind: Kind, s: string)
    ensures Frame(kind, s).None? <==> forall x :: 0 <= x <= |s| ==> FrameAt(kind, s, x).None?
    ensures forall x :: 0 <= x <= |s| && FrameAt(kind, s, x).Some? && NoFrameBefore(kind, s, 0, x) ==>
      Frame(kind, s) == FrameAt(kind, s, x)
  {
    FindFrameNone(kind, s, 0);
    forall x | 0 <= x <= |s| && FrameAt(kind, s, x).Some? && NoFrameBefore(kind, s, 0, x)
      ensures FindFrame(kind, s, 0) == FrameAt(kind, s, x)
    {
      FindFrameFirst(kind, s, 0, x);
    }
  }

  /** The listener settles on buffer `s`: the marker is present and the pattern matches. */
  predicate Accepts(kind: Kind, s: string)
  {
    Contains(s, kind.Marker()) && Frame(kind, s).Some?
  }

  // ---------------------------------------------------------------------------
  // A frame printed on its own line is found.

  /** The search moves past positions where it only steps forward. */
  lemma {:induction false} FindFrameSkip(kind: Kind, s: string, i: nat, j: nat)
    requires i < j <= |s|
    requires forall p :: i <= p < j ==> FindFrame(kind, s, p) == FindFrame(kind, s, p + 1)
    ensures FindFrame(kind, s, i) == FindFrame(kind, s, j)
    decreases j - i
  {
    if i + 1 < j {
      FindFrameSkip(kind, s, i + 1, j);
    }
  }

  lemma FindFrameStep(kind: Kind, s: string, i: nat)
    requires i < |s| && FrameAt(kind, s, i).None?
    ensures FindFrame(kind, s, i) == FindFrame(kind, s, i + 1)
  {
  }

  lemma {:induction false} LineEndOf(s: string, i: nat, t: string, u: string)
    requires i <= |s| && s[i..] == t + u
    requires forall k :: 0 <= k < |t| ==> LineChar(t[k])
    requires u == [] || !LineChar(u[0])
    ensures LineEnd(s, i) == i + |t|
    decreases |t|
  {
    if t != [] {
      assert s[i] == t[0];
      assert s[i + 1..] == t[1..] + u;
      LineEndOf(s, i + 1, t[1..], u);
    } else if u != [] {
      assert s[i] == u[0];
    }
  }

  /**
   * The buffer `pre + lead + f + post`, where `f` is a frame on its own line:
   * the frame opens right after the lead, and its line ends where `f` does.
   */
  lemma FrameOfLineCommon(kind: Kind, pre: string, f: string, post: string)
    requires |f| >= 1 && f[0] == '{'
    requires post == [] || !LineChar(post[0])
    requires forall k :: 0 <= k < |f| ==> LineChar(f[k])
    ensures var s := pre + kind.Lead() + f + post;
      var p := |pre + kind.Lead()|;
      && p < |s| && s[p..] == f + post && s[p..p + |f|] == f
      && LineEnd(s, p + 1) == p + |f|
      && OpensAt(kind, s, p)
  {
    var lead := kind.Lead();
    var s := pre + lead + f + post;
    var p := |pre + lead|;
    assert s == (pre + lead) + (f + post);
    FrameSlices(s, pre + lead, f, post);
    LineEndOf(s, p + 1, f[1..], post);
    LookbehindBeforeFrame(kind, pre, f + post);
    assert s[p] == f[0];
  }

  lemma FrameSlices(s: string, a: string, f: string, post: string)
    requires s == a + (f + post) && |f| >= 1
    ensures |a| < |s| && s[|a|..] == f + post && s[|a|..|a| + |f|] == f && s[|a| + 1..] == f[1..] + post
  {
    Pieces(s, a, f + post);
    Pieces(s[|a|..], f, post);
  }

  /**
   * No look-behind followed by `{` occurs in `pre`, and the lead holds no `{`,
   * so no position before the frame starts one.
   */
  lemma NoFrameBeforeLead(kind: Kind, pre: string, rest: string)
    requires !Contains(pre, kind.Lookbehind() + "{")
    ensures var s := pre + kind.Lead() + rest;
      Frame(kind, s) == FindFrame(kind, s, |pre + kind.Lead()|)
  {
    var lead := kind.Lead();
    var s := pre + lead + rest;
    var p := |pre + lead|;
    assert '{' !in lead;
    forall x | 0 <= x < p
      ensures FindFrame(kind, s, x) == FindFrame(kind, s, x + 1)
    {
      if x < |pre| {
        FrameInPre(kind, pre, s, x);
      } else {
        assert s[x] == lead[x - |pre|];
        NoFrameWithoutBrace(kind, s, x);
      }
      FindFrameStep(kind, s, x);
    }
    FindFrameSkip(kind, s, 0, p);
  }

  /** A frame opening inside a prefix `pre` puts its look-behind and its `{` inside `pre`. */
  lemma FrameInPre(kind: Kind, pre: string, s: string, x: nat)
    requires pre <= s && x < |pre|
    ensures OpensAt(kind, s, x) ==> Contains(pre, kind.Lookbehind() + "{")
  {
    var lb := kind.Lookbehind();
    if OpensAt(kind, s, x) {
      var a := x - |lb|;
      assert pre[a..x + 1] == lb + "{" by {
        assert pre[a..x + 1] == s[a..x + 1];
        assert s[a..x + 1] == s[a..x] + [s[x]];
      }
      ContainsSlice(pre, a, x + 1);
    }
  }

  /** A frame starts with `{`. */
  lemma NoFrameWithoutBrace(kind: Kind, s: string, x: nat)
    requires x < |s| && s[x] != '{'
    ensures FrameAt(kind, s, x).None?
  {
  }

  /** What the firmware prints before a frame ends with the pattern's look-behind. */
  lemma LookbehindBeforeFrame(kind: Kind, pre: string, rest: string)
    ensures var s := pre + kind.Lead() + rest;
      var p := |pre + kind.Lead()|;
      |kind.Lookbehind()| <= p && s[p - |kind.Lookbehind()|..p] == kind.Lookbehind()
  {
    var lead, lb := kind.Lead(), kind.Lookbehind();
    var s := pre + lead + rest;
    assert lb == lead[|lead| - |lb|..];
    PiecesAt(s, pre, lead, rest);
    LiteralSuffix(s, |pre|, lead, |lead| - |lb|);
  }

  /** An OpenShock configuration printed on its own line is exactly the frame the probe takes. */
  lemma ConfigFrameOfLine(pre: string, f: string, post: string)
    requires !Contains(pre, ConfigProbe.Lookbehind() + "{")
    requires |f| >= 3 && f[0] == '{' && f[|f| - 2] == '}' && f[|f| - 1] == '}'
    requires forall k :: 0 <= k < |f| ==> LineChar(f[k])
    requires post == [] || !LineChar(post[0])
    ensures Frame(ConfigProbe, pre + ConfigMarker + f + post) == Some(f)
  {
    var s := pre + ConfigMarker + f + post;
    assert s == pre + ConfigProbe.Lead() + (f + post);
    NoFrameBeforeLead(ConfigProbe, pre, f + post);
    ConfigLineFrame(pre, f, post);
  }

  /** Right after the marker, the search meets the configuration and takes all of it. */
  lemma ConfigLineFrame(pre: string, f: string, post: string)
    requires |f| >= 3 && f[0] == '{' && f[|f| - 2] == '}' && f[|f| - 1] == '}'
    requires forall k :: 0 <= k < |f| ==> LineChar(f[k])
    requires post == [] || !LineChar(post[0])
    ensures FindFrame(ConfigProbe, pre + ConfigMarker + f + post, |pre + ConfigMarker|) == Some(f)
  {
    var s := pre + ConfigMarker + f + post;
    var p := |pre + ConfigMarker|;
    FrameOfLineCommon(ConfigProbe, pre, f, post);
    assert ClosesAt(s, p + |f|) by {
      assert s[p + |f| - 2] == f[|f| - 2] && s[p + |f| - 1] == f[|f| - 1];
    }
    ConfigFrameEndAt(s, p, p + |f|);
    FrameAtLine(ConfigProbe, s, p, f);
  }

  /** A configuration whose line ends right after a `}}` ends there. */
  lemma ConfigFrameEndAt(s: string, p: nat, e: nat)
    requires p < |s| && p + 3 <= e == LineEnd(s, p + 1) && ClosesAt(s, e)
    ensures FrameEnd(ConfigProbe, s, p) == Some(e)
  {
  }

  /** A frame that opens at `p` and whose tail ends where `f` does is found at `p`, as `f`. */
  lemma FrameAtLine(kind: Kind, s: string, p: nat, f: string)
    requires OpensAt(kind, s, p) && p + |f| <= |s| && s[p..p + |f|] == f
    requires FrameEnd(kind, s, p) == Some(p + |f|)
    ensures FindFrame(kind, s, p) == Some(f)
  {
    assert FrameAt(kind, s, p) == Some(f);
  }

  /** The terminal information frame of a PiShock line. */
  function InfoFrame(body: string, digits: string): string
  {
    "{" + body + OwnerKey + digits + "}"
  }

  /** A PiShock terminal information frame printed on its own line is exactly the frame the probe takes. */
  lemma InfoFrameOfLine(pre: string, body: string, digits: string, post: string)
    requires !Contains(pre, InfoProbe.Lookbehind() + "{")
    requires digits != [] && AllDigits(digits)
    requires forall k :: 0 <= k < |body| ==> LineChar(body[k])
    requires post == [] || !LineChar(post[0])
    ensures Frame(InfoProbe, pre + InfoMarker + ": " + InfoFrame(body, digits) + post) == Some(InfoFrame(body, digits))
  {
    var f := InfoFrame(body, digits);
    var s := pre + InfoProbe.Lead() + f + post;
    assert pre + InfoMarker + ": " + f + post == s;
    assert s == pre + InfoProbe.Lead() + (f + post);
    NoFrameBeforeLead(InfoProbe, pre, f + post);
    InfoLineFrame(pre, body, digits, post);
  }

  /** Right after the marker and its `: `, the search meets the frame and takes all of it. */
  lemma InfoLineFrame(pre: string, body: string, digits: string, post: string)
    requires digits != [] && AllDigits(digits)
    requires forall k :: 0 <= k < |body| ==> LineChar(body[k])
    requires post == [] || !LineChar(post[0])
    ensures var s := pre + InfoProbe.Lead() + InfoFrame(body, digits) + post;
      FindFrame(InfoProbe, s, |pre + InfoProbe.Lead()|) == Some(InfoFrame(body, digits))
  {
    var f := InfoFrame(body, digits);
    var s := pre + InfoProbe.Lead() + f + post;
    var p := |pre + InfoProbe.Lead()|;
    InfoFrameIsLine(body, digits);
    FrameOfLineCommon(InfoProbe, pre, f, post);
    InfoFrameEnd(s, p, body, digits, post);
    FrameAtLine(InfoProbe, s, p, f);
  }

  /** The frame starts with `{` and stays on its line. */
  lemma InfoFrameIsLine(body: string, digits: string)
    requires AllDigits(digits)
    requires forall k :: 0 <= k < |body| ==> LineChar(body[k])
    ensures var f := InfoFrame(body, digits);
      |f| >= 1 && f[0] == '{' && forall k :: 0 <= k < |f| ==> LineChar(f[k])
  {
    var f := InfoFrame(body, digits);
    var tail := OwnerKey + digits + "}";
    assert f == "{" + body + tail;
    forall k | 0 <= k < |f|
      ensures LineChar(f[k])
    {
      if 1 <= k < 1 + |body| {
        assert f[k] == body[k - 1];
      } else if k >= 1 + |body| {
        assert f[k] == tail[k - 1 - |body|];
        if k - 1 - |body| >= |OwnerKey| + |digits| {
        } else if k - 1 - |body| >= |OwnerKey| {
          assert tail[k - 1 - |body|] == digits[k - 1 - |body| - |OwnerKey|];
        }
      }
    }
  }

  /** Where the frame's line ends, the pattern's tail ends too. */
  lemma InfoFrameEnd(s: string, p: nat, body: string, digits: string, post: string)
    requires p < |s| && s[p..] == InfoFrame(body, digits) + post
    requires LineEnd(s, p + 1) == p + |InfoFrame(body, digits)|
    requires post == [] || !LineChar(post[0])
    requires digits != [] && AllDigits(digits)
    ensures FrameEnd(InfoProbe, s, p) == Some(p + |InfoFrame(body, digits)|)
  {
    var tail := OwnerKey + digits + "}";
    var q0 := p + 1 + |body|;
    var end := p + |InfoFrame(body, digits)|;
    assert InfoFrame(body, digits) + post == "{" + body + (tail + post);
    TailAfterBody(s, p, body, tail + post);
    OwnerEndOf(s, q0, digits, post);
    OwnerTailFacts(s, q0, digits, post);
    LastOwnerFrom(s, p + 1, end, q0, post);
  }

  lemma TailAfterBody(s: string, p: nat, body: string, rest: string)
    requires p <= |s| && s[p..] == "{" + body + rest
    ensures p + 1 + |body| <= |s| && s[p + 1 + |body|..] == rest
  {
    Pieces(s[p..], "{" + body, rest);
    DropDrop(s, p, 1 + |body|);
  }

  /** Past the start of `ownerId":`, its digits and its `}`, no `o` occurs until the line's end. */
  lemma OwnerTailFacts(s: string, q: nat, digits: string, post: string)
    requires q <= |s| && s[q..] == OwnerKey + digits + "}" + post && AllDigits(digits)
    ensures q + |OwnerKey| + |digits| + 1 <= |s| && s[q + |OwnerKey| + |digits| + 1..] == post
    ensures forall x :: q < x < q + |OwnerKey| + |digits| + 1 ==> s[x] != 'o'
  {
    var tail := OwnerKey + digits + "}";
    Pieces(s[q..], tail, post);
    DropDrop(s, q, |tail|);
    forall x | q < x < q + |tail|
      ensures s[x] != 'o'
    {
      assert s[x] == s[q..][x - q] == tail[x - q];
      if x - q >= |OwnerKey| + |digits| {
      } else if x - q >= |OwnerKey| {
        assert tail[x - q] == digits[x - q - |OwnerKey|];
      } else {
        assert tail[x - q] == OwnerKey[x - q];
      }
    }
  }

  lemma OwnerEndOf(s: string, q: nat, digits: string, post: string)
    requires q <= |s| && s[q..] == OwnerKey + digits + "}" + post
    requires digits != [] && AllDigits(digits)
    ensures OwnerEnd(s, q) == Some(q + |OwnerKey| + |digits| + 1)
  {
    var m := q + |OwnerKey|;
    Pieces(s[q..], OwnerKey, digits + "}" + post);
    assert s[q..q + |OwnerKey|] == OwnerKey;
    assert s[m..] == digits + ("}" + post);
    DigitRunOf(s, m, digits, "}" + post);
    assert s[m + |digits|] == '}';
  }

  /** From the end of the line down to the start of the tail, no other start fits. */
  lemma LastOwnerFrom(s: string, lo: nat, end: nat, q0: nat, post: string)
    requires lo <= q0 && q0 + |OwnerKey| < end && end <= |s|
    requires s[end..] == post && (post == [] || !LineChar(post[0]))
    requires forall x :: q0 < x < end ==> s[x] != 'o'
    requires OwnerEnd(s, q0).Some?
    ensures LastOwner(s, lo, end) == Some(q0)
  {
    forall x | q0 < x <= end
      ensures OwnerEnd(s, x).None?
    {
      if x == end && x < |s| {
        assert s[x] == post[0];
      }
      NoOwnerAt(s, x);
    }
  }

  /** The owner key starts with `o`, so it cannot start at a position holding anything else. */
  lemma NoOwnerAt(s: string, x: nat)
    requires x <= |s| && (x < |s| ==> s[x] != 'o')
    ensures OwnerEnd(s, x).None?
  {
    assert !LiteralAt(s, x, OwnerKey) by {
      if x + |OwnerKey| <= |s| {
        assert s[x..x + |OwnerKey|][0] == s[x];
      }
    }
  }

  // ---------------------------------------------------------------------------
  // Marker and pattern

  /** For PiShock the marker test adds nothing: every terminal information frame comes after the marker. */
  lemma InfoMarkerImplied(s: string)
    ensures Accepts(InfoProbe, s) <==> Frame(InfoProbe, s).Some?
  {
    if Frame(InfoProbe, s).Some? {
      var f := Frame(InfoProbe, s).value;
      ContainsTrans(s, InfoProbe.Lookbehind() + f, InfoMarker);
    }
  }

  lemma {:induction false} ContainsTrans(s: string, t: string, u: string)
    requires Contains(s, t) && u <= t
    ensures Contains(s, u)
  {
    if !(t <= s) {
      ContainsTrans(s[1..], t, u);
    }
  }

  // ---------------------------------------------------------------------------
  // The probe

  /** `data` is the concatenation of the chunks. */
  function Concat(chunks: seq<string>): string
  {
    if chunks == [] then "" else Concat(chunks[..|chunks| - 1]) + chunks[|chunks| - 1]
  }

  /** How the probe's promise stands: still open, resolved with a frame or `null`, or stuck after a throw. */
  datatype Status =
    | Pending
    | Found(value: Json)
    | TimedOut
    | Crashed(frame: string)

  class Probe {
    const kind: Kind
    /** `JSON.parse`; `None` where it throws. */
    const parse: string -> Option<Json>
    var data: string
    var listening: bool
    var timeoutArmed: bool
    var intervalRunning: bool
    var status: Status
    ghost var chunks: seq<string>

    ghost predicate Valid()
      reads this
    {
      && data == Concat(chunks)
      && (listening <==> status.Pending?)
      && (status.Pending? ==> timeoutArmed && intervalRunning && !Accepts(kind, data))
      && (!status.Pending? ==> !timeoutArmed)
      && ((status.Found? || status.Crashed?) ==> data == "" && chunks == [] && intervalRunning)
      && (status.TimedOut? ==> !intervalRunning)
    }

    /** What the promise resolves to, once it has. */
    function Result(): Option<Option<Json>>
      reads this
    {
      match status
      case Found(v) => Some(Some(v))
      case TimedOut => Some(None)
      case _ => None
    }

    /**
     * Starting a probe arms the interval and the timeout and attaches the
     * listener; nothing is sent until the interval first fires.
     */
    constructor(kind: Kind, parse: string -> Option<Json>)
      ensures Valid()
      ensures this.kind == kind && this.parse == parse
      ensures data == "" && chunks == [] && status == Pending
      ensures listening && timeoutArmed && intervalRunning
    {
      this.kind := kind;
      this.parse := parse;
      data := "";
      chunks := [];
      listening := true;
      timeoutArmed := true;
      intervalRunning := true;
      status := Pending;
    }

    /** One tick of the interval: the request, for as long as the interval runs. */
    method OnTick() returns (sent: Option<Outgoing>)
      ensures intervalRunning ==> sent == Some(kind.Poll())
      ensures !intervalRunning ==> sent == None
    {
      if intervalRunning {
        sent := Some(kind.Poll());
      } else {
        sent := None;
      }
    }

    /**
     * A chunk from the port. While listening it is appended to the buffer;
     * once the buffer holds the marker and a frame, the buffer is cleared, the
     * timeout cancelled and the listener detached, the interval is left
     * running, and the frame is parsed.
     */
    method OnChunk(chunk: string)
      requires Valid()
      modifies this
      ensures Valid()
      ensures !old(listening) ==> unchanged(this)
      ensures old(listening) && !Accepts(kind, old(data) + chunk) ==>
        && data == old(data) + chunk && chunks == old(chunks) + [chunk]
        && status == Pending && listening && timeoutArmed && intervalRunning
      ensures old(listening) && Accepts(kind, old(data) + chunk) ==>
        var f := Frame(kind, old(data) + chunk).value;
        && data == "" && chunks == []
        && !listening && !timeoutArmed && intervalRunning
        && status == (if parse(f).Some? then Found(parse(f).value) else Crashed(f))
    {
      if !listening {
        return;
      }
      assert (chunks + [chunk])[..|chunks|] == chunks;
      data := data + chunk;
      chunks := chunks + [chunk];
      if Contains(data, kind.Marker()) {
        var m := Frame(kind, data);
        if m.Some? {
          data := "";
          chunks := [];
          timeoutArmed := false;
          listening := false;
          var parsed := parse(m.value);
          if parsed.Some? {
            status := Found(parsed.value);
          } else {
            status := Crashed(m.value);
          }
        }
      }
    }

    /** The timeout fires, if it is still armed: detach, stop the interval, resolve with `null`. */
    method OnTimeout()
      requires Valid()
      modifies this
      ensures Valid()
      ensures !old(timeoutArmed) ==> unchanged(this)
      ensures old(timeoutArmed) ==>
        && !listening && !timeoutArmed && !intervalRunning && status == TimedOut
        && data == old(data) && chunks == old(chunks)
    {
      if !timeoutArmed {
        return;
      }
      listening := false;
      intervalRunning := false;
      timeoutArmed := false;
      status := TimedOut;
    }
  }

  /** A configuration printed on its own line settles the probe on that configuration. */
  lemma ConfigLineAccepted(f: string, chunk: string)
    requires |f| >= 3 && f[0] == '{' && f[|f| - 2] == '}' && f[|f| - 1] == '}'
    requires forall k :: 0 <= k < |f| ==> LineChar(f[k])
    requires chunk == ConfigMarker + f + "\n"
    ensures Frame(ConfigProbe, "" + chunk) == Some(f) && Accepts(ConfigProbe, "" + chunk)
  {
    ConfigFrameOfLine("", f, "\n");
    assert "" + ConfigMarker + f + "\n" == chunk;
    assert "" + chunk == chunk;
    ContainsAt(chunk, ConfigMarker, 0);
  }

  /**
   * A probe that reads an OpenShock configuration keeps sending `jsonconfig`
   * on every later tick: success clears the timeout but never the interval.
   */
  method PollingOutlivesSuccess(parse: string -> Option<Json>, f: string)
    returns (result: Option<Option<Json>>, afterwards: Option<Outgoing>)
    requires |f| >= 3 && f[0] == '{' && f[|f| - 2] == '}' && f[|f| - 1] == '}'
    requires forall k :: 0 <= k < |f| ==> LineChar(f[k])
    requires parse(f).Some?
    ensures result == Some(parse(f))
    ensures afterwards == Some(Text("jsonconfig"))
  {
    var probe := new Probe(ConfigProbe, parse);
    var chunk := ConfigMarker + f + "\n";
    ConfigLineAccepted(f, chunk);
    probe.OnChunk(chunk);
    assert probe.status == Found(parse(f).value) && probe.intervalRunning && probe.kind == ConfigProbe;
    result := probe.Result();
    afterwards := probe.OnTick();
  }
}
