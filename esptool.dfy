/**
 * The wrapper around the external `esptool` flasher: its one-time
 * initialisation, the shared instance, the guard and argument list of a flash
 * run, the progress read from the flasher's output and the meaning of its
 * exit code. Searching for the executable and running it are inputs here.
 */
module EspTool {
  import opened Base
  import opened Records

  const NotInitializedMessage := "ESPTool is not initialized."
  const GuardMessage := "ESPTool is not initialized or port is not set."

  /** Arguments a PiShock image adds after `write_flash`: flash frequency, compression and load address. */
  const PiShockFlashFlags := ["--flash_freq", "40m", "-z", "0x1000"]

  /** Arguments an OpenShock image adds after `write_flash`: its load address. */
  const OpenShockFlashFlags := ["0x0"]

  function FlashFlags(target: BoardFirmware): seq<string>
  {
    match target
    case PiShock => PiShockFlashFlags
    case OpenShock => OpenShockFlashFlags
  }

  class EspTool {
    var esptoolPath: Option<string>
    var initialized: bool

    /** Once initialised, the wrapper holds a usable (non-empty) path. */
    ghost predicate Valid()
      reads this
    {
      initialized ==> Truthy(esptoolPath)
    }

    constructor()
      ensures Valid() && esptoolPath == None && !initialized
    {
      esptoolPath := None;
      initialized := false;
    }

    /**
     * `init`: a no-op once initialised; otherwise records what the search for
     * the executable `found`, and exits the process (`exited`) when that is
     * empty.
     */
    method Init(found: Option<string>) returns (exited: bool)
      requires Valid()
      modifies this
      ensures Valid()
      ensures old(initialized) ==> !exited && initialized && esptoolPath == old(esptoolPath)
      ensures !old(initialized) ==> esptoolPath == found && exited == !Truthy(found) && initialized == !exited
      ensures !exited ==> initialized && Truthy(esptoolPath)
    {
      if initialized {
        return false;
      }
      esptoolPath := found;
      if !Truthy(esptoolPath) {
        return true;
      }
      initialized := true;
      exited := false;
    }

    /** `getPath`: the executable's path, or the "not initialized" error. */
    method GetPath() returns (r: Result<string, string>)
      requires Valid()
      ensures r.Ok? <==> initialized
      ensures r.Ok? ==> esptoolPath == Some(r.value) && r.value != ""
      ensures r.Err? ==> r.error == NotInitializedMessage
    {
      if !initialized {
        return Err(NotInitializedMessage);
      }
      return Ok(esptoolPath.value);
    }

    /**
     * `flash`: refuses before building anything unless initialised with a path
     * and given a device port with a path; otherwise runs the flasher with
     * `args` and settles by its `exitCode`.
     */
    method Flash(portPath: Option<string>, filePath: string, target: BoardFirmware, exitCode: Option<int>)
      returns (args: Option<seq<string>>, r: Result<(), string>)
      ensures args.None? <==> !(initialized && Truthy(esptoolPath) && Truthy(portPath))
      ensures args.None? ==> r == Err(GuardMessage)
      ensures args.Some? ==> args.value == ["--port", portPath.value, "write_flash"] + FlashFlags(target) + [filePath]
      ensures args.Some? ==> r == ExitStatus(exitCode)
    {
      if !initialized || !Truthy(esptoolPath) || !Truthy(portPath) {
        return None, Err(GuardMessage);
      }
      var a := ["--port", portPath.value, "write_flash"];
      match target {
        case PiShock =>
          for i := 0 to |PiShockFlashFlags|
            invariant a == ["--port", portPath.value, "write_flash"] + PiShockFlashFlags[..i]
          {
            a := a + [PiShockFlashFlags[i]];
          }
        case OpenShock =>
          a := a + ["0x0"];
      }
      a := a + [filePath];
      args := Some(a);
      r := ExitStatus(exitCode);
    }
  }

  /** Holder of the class-wide `instance` used by `getInstance`. */
  class Registry {
    var instance: EspTool?

    constructor()
      ensures instance == null
    {
      instance := null;
    }

    /** `getInstance`: creates the wrapper on first use and hands out that same object afterwards. */
    method GetInstance() returns (t: EspTool)
      modifies this
      ensures old(instance) != null ==> t == old(instance)
      ensures old(instance) == null ==> fresh(t) && t.Valid() && !t.initialized && t.esptoolPath.None?
      ensures instance == t
    {
      if instance == null {
        instance := new EspTool();
      }
      t := instance;
    }
  }

  /** Two calls of `getInstance` return one object. */
  method GetInstanceTwice(registry: Registry) returns (first: EspTool, second: EspTool)
    modifies registry
    ensures first == second
  {
    first := registry.GetInstance();
    second := registry.GetInstance();
  }

  // ---------------------------------------------------------------------------
  // Exit code

  /** The text `${code}` gives for the child's exit code (`null` when it was killed by a signal). */
  function CodeText(code: Option<int>): string
  {
    match code
    case None => "null"
    case Some(c) => IntToString(c)
  }

  /** How the flash settles: resolved for exit code 0, otherwise rejected with the code in the message. */
  function ExitStatus(code: Option<int>): (r: Result<(), string>)
    ensures r.Ok? <==> code == Some(0)
    ensures r.Err? ==> "ESPTool exited with code " <= r.error && |r.error| > 25
  {
    if code == Some(0) then Ok(()) else Err("ESPTool exited with code " + CodeText(code))
  }

  lemma CodeTextInjective(a: Option<int>, b: Option<int>)
    requires CodeText(a) == CodeText(b)
    ensures a == b
  {
    if a.Some? && b.Some? {
      IntToStringInjective(a.value, b.value);
    } else if a.Some? {
      IntToStringStart(a.value);
      assert false;
    } else if b.Some? {
      IntToStringStart(b.value);
      assert false;
    }
  }

  /** Only exit code 0 resolves, and the rejection message tells every other code apart. */
  lemma ExitStatusDeterminesCode(a: Option<int>, b: Option<int>)
    ensures ExitStatus(a).Ok? <==> a == Some(0)
    ensures ExitStatus(a) == ExitStatus(b) ==> a == b
  {
    if ExitStatus(a) == ExitStatus(b) && ExitStatus(a).Err? {
      var prefix := "ESPTool exited with code ";
      assert CodeText(a) == ExitStatus(a).error[|prefix|..];
      assert CodeText(b) == ExitStatus(b).error[|prefix|..];
      CodeTextInjective(a, b);
    }
  }

  // ---------------------------------------------------------------------------
  // Progress: /Writing at 0x[0-9a-f]+\.{3} \((\d+) %\)/ on the trimmed output

  const ProgressLead := "Writing at 0x"

  predicate IsHexLower(c: char)
  {
    '0' <= c <= '9' || 'a' <= c <= 'f'
  }

  predicate IsHexText(h: string)
  {
    h != [] && forall k :: 0 <= k < |h| ==> IsHexLower(h[k])
  }

  predicate IsDigitText(d: string)
  {
    d != [] && AllDigits(d)
  }

  /** A progress report of the flasher: address `h`, percentage `d`. */
  function ProgressLine(h: string, d: string): string
  {
    ProgressLead + h + "... (" + d + " %)"
  }

  /** Length of the longest run of lower-case hex digits starting at `i`. */
  function HexRun(s: string, i: nat): (n: nat)
    requires i <= |s|
    ensures i + n <= |s|
    decreases |s| - i
  {
    if i < |s| && IsHexLower(s[i]) then 1 + HexRun(s, i + 1) else 0
  }

  /** The run is made of hex digits and is as long as it can be. */
  lemma {:induction false} HexRunSpan(s: string, i: nat)
    requires i <= |s|
    ensures forall k :: i <= k < i + HexRun(s, i) ==> IsHexLower(s[k])
    ensures i + HexRun(s, i) < |s| ==> !IsHexLower(s[i + HexRun(s, i)])
    decreases |s| - i
  {
    if i < |s| && IsHexLower(s[i]) {
      HexRunSpan(s, i + 1);
    }
  }

  /** `s` holds a complete progress report whose percentage is `d`. */
  ghost predicate HasReport(s: string, d: string)
  {
    exists h :: IsHexText(h) && Contains(s, ProgressLine(h, d))
  }

  /**
   * The captured percentage when the pattern matches at position `i`. Both
   * repetitions are greedy, and the character after each run cannot extend
   * it, so the longest runs are the only candidates.
   */
  function MatchAt(s: string, i: nat): (r: Option<string>)
    requires i <= |s|
    ensures r.Some? ==> IsDigitText(r.value)
  {
    if !LiteralAt(s, i, ProgressLead) then None
    else MatchAfterLead(s, i + |ProgressLead|)
  }

  /** The rest of the pattern, `[0-9a-f]+\.\.\. \((\d+) %\)`, from position `j`. */
  function MatchAfterLead(s: string, j: nat): (r: Option<string>)
    requires j <= |s|
    ensures r.Some? ==> IsDigitText(r.value)
  {
    var h := HexRun(s, j);
    if h == 0 || !LiteralAt(s, j + h, "... (") then None
    else PercentAt(s, j + h + 5)
  }

  /** A match is sound: what it captures is the percentage of a complete report in `s`. */
  lemma MatchAtSound(s: string, i: nat)
    requires i <= |s|
    ensures MatchAt(s, i).Some? ==> HasReport(s, MatchAt(s, i).value)
  {
    if MatchAt(s, i).Some? {
      var j, d := i + |ProgressLead|, MatchAt(s, i).value;
      var k := j + HexRun(s, j);
      assert LiteralAt(s, k, "... (") && PercentAt(s, k + 5) == Some(d) by {
        assert MatchAfterLead(s, j) == Some(d);
      }
      HexRunSpan(s, j);
      PercentReport(s, i, k, d);
    }
  }

  /** The lead, an address run up to `k`, the separator and the percentage `d`: a report of `d`. */
  lemma PercentReport(s: string, i: nat, k: nat, d: string)
    requires i + |ProgressLead| < k && k + 5 <= |s|
    requires LiteralAt(s, i, ProgressLead) && LiteralAt(s, k, "... (")
    requires forall x :: i + |ProgressLead| <= x < k ==> IsHexLower(s[x])
    requires PercentAt(s, k + 5) == Some(d)
    ensures HasReport(s, d)
  {
    ReportAt(s, i, k, k + 5 + |d|, d);
  }

  /** The tail `(\d+) %\)` of the pattern, starting at position `m`: the captured digits. */
  function PercentAt(s: string, m: nat): (r: Option<string>)
    requires m <= |s|
    ensures r.Some? ==> IsDigitText(r.value) && LiteralAt(s, m + |r.value|, " %)") && s[m..m + |r.value|] == r.value
  {
    var d := DigitRun(s, m);
    if d == 0 || !LiteralAt(s, m + d, " %)") then None
    else Some(s[m..m + d])
  }

  /** A report spelled out in `s` from position `i`, with its address ending at `k` and its digits at `n`. */
  lemma ReportAt(s: string, i: nat, k: nat, n: nat, d: string)
    requires i + |ProgressLead| < k && k + 5 < n
    requires LiteralAt(s, i, ProgressLead) && LiteralAt(s, k, "... (") && LiteralAt(s, n, " %)")
    requires forall x :: i + |ProgressLead| <= x < k ==> IsHexLower(s[x])
    requires s[k + 5..n] == d
    ensures HasReport(s, d)
  {
    var j := i + |ProgressLead|;
    LineAt(s, i, j, k, k + 5, n, n + 3);
    var hex := s[j..k];
    ContainsAt(s, ProgressLine(hex, d), i);
    assert IsHexText(hex);
  }

  /** Five adjacent pieces of `s` that spell a progress report. */
  lemma LineAt(s: string, i: nat, j: nat, k: nat, m: nat, n: nat, e: nat)
    requires i <= j <= k <= m <= n <= e <= |s|
    requires s[i..j] == ProgressLead && s[k..m] == "... (" && s[n..e] == " %)"
    ensures s[i..e] == ProgressLine(s[j..k], s[m..n])
  {
    assert s[i..e] == s[i..j] + (s[j..k] + (s[k..m] + (s[m..n] + s[n..e]))) by {
      SliceJoin(s, m, n, e);
      SliceJoin(s, k, m, e);
      SliceJoin(s, j, k, e);
      SliceJoin(s, i, j, e);
    }
    Nest5(ProgressLead, s[j..k], "... (", s[m..n], " %)");
  }

  lemma Nest5(a: string, b: string, c: string, d: string, e: string)
    ensures a + b + c + d + e == a + (b + (c + (d + e)))
  {
  }

  /**
   * The percentage reported for a chunk of output: present only when the
   * chunk holds a progress report, and then the digits of the leftmost match;
   * absent exactly when the pattern matches nowhere.
   */
  function ExtractProgress(s: string): (r: Option<string>)
    ensures r.Some? ==> IsDigitText(r.value) && HasReport(s, r.value)
    ensures r.None? <==> forall x :: 0 <= x <= |s| ==> MatchAt(s, x).None?
    ensures forall x :: 0 <= x <= |s| && MatchAt(s, x).Some? && NoMatchBefore(s, 0, x) ==> r == MatchAt(s, x)
  {
    LeftmostFrom(s, 0);
    ExtractFromSound(s, 0);
    ExtractProgressFrom(s, 0)
  }

  /** The pattern matches at no position in `[i, x)`. */
  predicate NoMatchBefore(s: string, i: nat, x: nat)
    requires x <= |s|
  {
    forall y :: i <= y < x ==> MatchAt(s, y).None?
  }

  /** The search from position `i` on, one position at a time. */
  function ExtractProgressFrom(s: string, i: nat): (r: Option<string>)
    requires i <= |s|
    ensures r.Some? ==> IsDigitText(r.value)
    decreases |s| - i
  {
    if MatchAt(s, i).Some? then MatchAt(s, i)
    else if i == |s| then None
    else ExtractProgressFrom(s, i + 1)
  }

  /** The search from `i` finds the leftmost match at or after `i`, and nothing exactly when there is none. */
  lemma {:induction false} LeftmostFrom(s: string, i: nat)
    requires i <= |s|
    ensures ExtractProgressFrom(s, i).None? <==> forall x :: i <= x <= |s| ==> MatchAt(s, x).None?
    ensures forall x :: i <= x <= |s| && MatchAt(s, x).Some? && NoMatchBefore(s, i, x) ==>
      ExtractProgressFrom(s, i) == MatchAt(s, x)
    decreases |s| - i
  {
    NoneFrom(s, i);
    forall x | i <= x <= |s| && MatchAt(s, x).Some? && NoMatchBefore(s, i, x)
      ensures ExtractProgressFrom(s, i) == MatchAt(s, x)
    {
      FirstFrom(s, i, x);
    }
  }

  /** The search from `i` finds nothing exactly when the pattern matches nowhere from `i` on. */
  lemma {:induction false} NoneFrom(s: string, i: nat)
    requires i <= |s|
    ensures ExtractProgressFrom(s, i).None? <==> forall x :: i <= x <= |s| ==> MatchAt(s, x).None?
    decreases |s| - i
  {
    if MatchAt(s, i).None? && i < |s| {
      ExtractStep(s, i);
      NoneFrom(s, i + 1);
    }
  }

  /** The search from `i` stops at the first match `x`. */
  lemma {:induction false} FirstFrom(s: string, i: nat, x: nat)
    requires i <= x <= |s| && MatchAt(s, x).Some? && NoMatchBefore(s, i, x)
    ensures ExtractProgressFrom(s, i) == MatchAt(s, x)
    decreases x - i
  {
    if i < x {
      assert MatchAt(s, i).None?;
      ExtractStep(s, i);
      FirstFrom(s, i + 1, x);
    }
  }

  /** Where the pattern does not match, the search moves on to the next position. */
  lemma ExtractStep(s: string, i: nat)
    requires i < |s| && MatchAt(s, i).None?
    ensures ExtractProgressFrom(s, i) == ExtractProgressFrom(s, i + 1)
  {
  }

  /** What the search from `i` finds is the percentage of a complete report in `s`. */
  lemma {:induction false} ExtractFromSound(s: string, i: nat)
    requires i <= |s|
    ensures ExtractProgressFrom(s, i).Some? ==> HasReport(s, ExtractProgressFrom(s, i).value)
    decreases |s| - i
  {
    if MatchAt(s, i).Some? {
      MatchAtSound(s, i);
    } else if i < |s| {
      ExtractFromSound(s, i + 1);
    }
  }

  lemma PercentOf(s: string, m: nat, d: string, t: string)
    requires m <= |s| && s[m..] == d + t
    requires IsDigitText(d) && " %)" <= t
    ensures PercentAt(s, m) == Some(d)
  {
    DigitRunOf(s, m, d, t);
    Pieces(s[m..], d, t);
    assert s[m + |d|..] == s[m..][|d|..];
    LiteralOfSuffix(s, m + |d|, " %)", t);
    assert s[m..m + |d|] == s[m..][..|d|];
  }

  /** The pattern matches at the start of a report, capturing that report's percentage. */
  lemma MatchOfReport(s: string, i: nat, h: string, d: string, rest: string)
    requires i <= |s| && s[i..] == ProgressLine(h, d) + rest
    requires IsHexText(h) && IsDigitText(d)
    ensures MatchAt(s, i) == Some(d)
  {
    var t2 := " %)" + rest;
    var t1 := "... (" + (d + t2);
    var j := i + |ProgressLead|;
    assert LiteralAt(s, i, ProgressLead) && s[j..] == h + t1 by {
      assert ProgressLead + (h + t1) == ProgressLine(h, d) + rest;
      ReportHead(s, i, h + t1);
    }
    assert LiteralAt(s, j + |h|, "... (") && s[j + |h| + 5..] == d + t2 by {
      ReportTail(s, j, h, d, t2);
    }
    assert PercentAt(s, j + |h| + 5) == Some(d) by {
      PercentOf(s, j + |h| + 5, d, t2);
    }
    MatchAtOf(s, i, h, d + t2, d);
  }

  /** The fixed lead of a report, and what follows it. */
  lemma ReportHead(s: string, i: nat, t: string)
    requires i <= |s| && s[i..] == ProgressLead + t
    ensures LiteralAt(s, i, ProgressLead) && s[i + |ProgressLead|..] == t
  {
    LiteralOfSuffix(s, i, ProgressLead, ProgressLead + t);
    DropDrop(s, i, |ProgressLead|);
    Pieces(ProgressLead + t, ProgressLead, t);
  }

  /** After the address: the `... (` separator, then the digits and the rest. */
  lemma ReportTail(s: string, j: nat, h: string, d: string, t2: string)
    requires j <= |s| && s[j..] == h + ("... (" + (d + t2))
    ensures s[j + |h|..] == "... (" + (d + t2)
    ensures LiteralAt(s, j + |h|, "... (")
    ensures s[j + |h| + 5..] == d + t2
  {
    var t1 := "... (" + (d + t2);
    DropDrop(s, j, |h|);
    Pieces(h + t1, h, t1);
    LiteralOfSuffix(s, j + |h|, "... (", t1);
    DropDrop(s, j + |h|, 5);
    Pieces(t1, "... (", d + t2);
  }

  /** The pattern's three parts found in sequence at `i` make a match there. */
  lemma MatchAtOf(s: string, i: nat, h: string, t: string, d: string)
    requires i + |ProgressLead| <= |s| && LiteralAt(s, i, ProgressLead)
    requires s[i + |ProgressLead|..] == h + ("... (" + t) && IsHexText(h)
    requires LiteralAt(s, i + |ProgressLead| + |h|, "... (")
    requires PercentAt(s, i + |ProgressLead| + |h| + 5) == Some(d)
    ensures MatchAt(s, i) == Some(d)
  {
    var j := i + |ProgressLead|;
    assert HexRun(s, j) == |h| by {
      HexRunBeforeSeparator(s, j, h, t);
    }
    MatchAtParts(s, i, |h|, d);
  }

  /** `MatchAt` unfolded: the lead, an address run of length `n`, the separator and the percentage. */
  lemma MatchAtParts(s: string, i: nat, n: nat, d: string)
    requires i + |ProgressLead| <= |s| && LiteralAt(s, i, ProgressLead)
    requires HexRun(s, i + |ProgressLead|) == n > 0
    requires LiteralAt(s, i + |ProgressLead| + n, "... (")
    requires PercentAt(s, i + |ProgressLead| + n + 5) == Some(d)
    ensures MatchAt(s, i) == Some(d)
  {
    assert MatchAfterLead(s, i + |ProgressLead|) == Some(d);
  }



  /** A chunk that begins with a progress report reports exactly its percentage. */
  lemma ProgressOfReport(h: string, d: string, rest: string)
    requires IsHexText(h) && IsDigitText(d)
    ensures ExtractProgress(ProgressLine(h, d) + rest) == Some(d)
  {
    MatchOfReport(ProgressLine(h, d) + rest, 0, h, d, rest);
  }

  /**
   * A report anywhere in the output is found, and its percentage is the one
   * shown unless the pattern already matches further left.
   */
  lemma ReportFound(pre: string, h: string, d: string, rest: string)
    requires IsHexText(h) && IsDigitText(d)
    ensures ExtractProgress(pre + ProgressLine(h, d) + rest).Some?
    ensures NoMatchBefore(pre + ProgressLine(h, d) + rest, 0, |pre|) ==>
      ExtractProgress(pre + ProgressLine(h, d) + rest) == Some(d)
  {
    var s := pre + ProgressLine(h, d) + rest;
    assert s[|pre|..] == ProgressLine(h, d) + rest;
    MatchOfReport(s, |pre|, h, d, rest);
  }

  /** The address run stops where the `... (` separator begins. */
  lemma HexRunBeforeSeparator(s: string, j: nat, h: string, t: string)
    requires j <= |s| && s[j..] == h + ("... (" + t) && IsHexText(h)
    ensures HexRun(s, j) == |h|
  {
    var t1 := "... (" + t;
    assert t1[0] == '.';
    HexRunOf(s, j, h, t1);
  }

  lemma {:induction false} HexRunOf(s: string, j: nat, h: string, t: string)
    requires j <= |s| && s[j..] == h + t
    requires forall k :: 0 <= k < |h| ==> IsHexLower(h[k])
    requires t != [] && !IsHexLower(t[0])
    ensures HexRun(s, j) == |h|
    decreases |h|
  {
    if h != [] {
      assert s[j] == h[0];
      assert s[j + 1..] == h[1..] + t;
      HexRunOf(s, j + 1, h[1..], t);
    } else {
      assert s[j] == t[0];
    }
  }

  /** `String.prototype.trim`'s white space and line terminators. */
  predicate IsSpace(c: char)
  {
    c == ' ' || c == '\t' || c == '\n' || c == '\r' || c == 11 as char || c == 12 as char
    || c == 0xa0 as char || c == 0x1680 as char || (0x2000 as char <= c <= 0x200a as char)
    || c == 0x2028 as char || c == 0x2029 as char || c == 0x202f as char || c == 0x205f as char
    || c == 0x3000 as char || c == 0xfeff as char
  }

  function TrimStart(s: string): string
  {
    if s != [] && IsSpace(s[0]) then TrimStart(s[1..]) else s
  }

  function TrimEnd(s: string): string
  {
    if s != [] && IsSpace(s[|s| - 1]) then TrimEnd(s[..|s| - 1]) else s
  }

  function Trim(s: string): string
  {
    TrimEnd(TrimStart(s))
  }

  lemma {:induction false} TrimEndKeepsPrefix(a: string, b: string)
    requires a != [] && !IsSpace(a[|a| - 1])
    ensures a <= TrimEnd(a + b)
    decreases |b|
  {
    if b != [] && IsSpace(b[|b| - 1]) {
      assert (a + b)[..|a + b| - 1] == a + b[..|b| - 1];
      TrimEndKeepsPrefix(a, b[..|b| - 1]);
    } else if b == [] {
      assert a + b == a;
    }
  }

  /** What the stdout listener reports for one chunk of the flasher's output. */
  function ProgressOf(chunk: string): (r: Option<string>)
    ensures r.Some? ==> IsDigitText(r.value) && HasReport(Trim(chunk), r.value)
    ensures r.None? <==> forall x :: 0 <= x <= |Trim(chunk)| ==> MatchAt(Trim(chunk), x).None?
  {
    ExtractProgress(Trim(chunk))
  }

  /** A chunk starting with a progress report shows exactly that report's percentage. */
  lemma ProgressOfChunk(h: string, d: string, rest: string)
    requires IsHexText(h) && IsDigitText(d)
    ensures ProgressOf(ProgressLine(h, d) + rest) == Some(d)
  {
    var line := ProgressLine(h, d);
    var chunk := line + rest;
    assert chunk[0] == 'W';
    assert TrimStart(chunk) == chunk;
    assert line[|line| - 1] == ')';
    TrimEndKeepsPrefix(line, rest);
    var trimmed := Trim(chunk);
    assert trimmed == line + trimmed[|line|..];
    ProgressOfReport(h, d, trimmed[|line|..]);
  }
}
