/**
 * Finding the hub and telling its firmware: the serial port chosen by its USB
 * vendor and product ids, and the race between the two settings probes that
 * `detectFirmware` runs side by side.
 */
module Detection {
  import opened Base
  import opened Json
  import opened Records
  import Probes

  // ---------------------------------------------------------------------------
  // Port selection

  /** The USB vendor id of the hub's serial adapter. */
  const PiShockVendorId := "1A86"
  /** The USB product id of the hub's serial adapter. */
  const PiShockProductId := "7523"

  /** One entry of `SerialPort.list()`; the ids are absent for some ports. */
  datatype PortInfo = PortInfo(path: string, vendorId: Option<string>, productId: Option<string>)

  /** `a?.toLocaleLowerCase() === b.toLocaleLowerCase()`: an absent id matches nothing. */
  predicate SameId(a: Option<string>, b: string)
  {
    a.Some? && Lower(a.value) == Lower(b)
  }

  /** The `find` predicate of `findPort`. */
  predicate IsPiShockPort(p: PortInfo)
  {
    SameId(p.vendorId, PiShockVendorId) && SameId(p.productId, PiShockProductId)
  }

  /** `ports.find(...)`: the position of the first hub port in the listing, if any. */
  function FindPiShockPort(ports: seq<PortInfo>): (r: Option<nat>)
    ensures r.Some? ==> r.value < |ports| && IsPiShockPort(ports[r.value])
    ensures r.Some? ==> forall j :: 0 <= j < r.value ==> !IsPiShockPort(ports[j])
    ensures r.None? <==> forall j :: 0 <= j < |ports| ==> !IsPiShockPort(ports[j])
  {
    if ports == [] then None
    else if IsPiShockPort(ports[0]) then Some(0)
    else
      match FindPiShockPort(ports[1..])
      case None => None
      case Some(k) => Some(k + 1)
  }

  /** The ids are compared without regard to case: a port reporting them upper-cased is found as well. */
  lemma PortIdsIgnoreCase(path: string, vendorId: string, productId: string)
    ensures IsPiShockPort(PortInfo(path, Some(Upper(vendorId)), Some(Upper(productId))))
        <==> IsPiShockPort(PortInfo(path, Some(vendorId), Some(productId)))
  {
    LowerOfUpper(vendorId);
    LowerOfUpper(productId);
  }

  /** A port whose ids are missing is never taken. */
  lemma MissingIdNeverMatches(p: PortInfo)
    requires p.vendorId.None? || p.productId.None?
    ensures !IsPiShockPort(p)
  {
  }

  // ---------------------------------------------------------------------------
  // The detection race

  /**
   * One probe settling: which firmware it asked for, and whether it got an
   * answer (`tryGetPiShockTermInfo() !== null`, `tryGetOpenShockJsonConfig() !== null`).
   */
  datatype Completion = Completion(probe: BoardFirmware, positive: bool)

  /** What a probe's result says about detection: any parsed value other than `null` counts. */
  function Positive(probe: BoardFirmware, result: Option<Json>): (c: Completion)
    ensures c.positive <==> result.Some? && result.value != JNull
  {
    Completion(probe, result.Some? && result.value != JNull)
  }

  /**
   * A settled probe's completion: it counts for its own firmware, and it is
   * positive exactly when the probe found a value other than `null`; a probe
   * that timed out never is.
   */
  lemma ProbeVerdict(p: Probes.Probe)
    requires p.Result().Some?
    ensures Positive(p.kind.Family(), p.Result().value).probe == p.kind.Family()
    ensures Positive(p.kind.Family(), p.Result().value).positive <==> p.status.Found? && p.status.value != JNull
    ensures p.status.TimedOut? ==> !Positive(p.kind.Family(), p.Result().value).positive
  {
  }

  /** At most the two probes settle, each at most once. */
  predicate WellFormed(cs: seq<Completion>)
  {
    |cs| <= 2 && (|cs| == 2 ==> cs[0].probe != cs[1].probe)
  }

  /** The first positive completion, if there is one. */
  function FirstPositive(cs: seq<Completion>): (r: Option<nat>)
    ensures r.Some? ==> r.value < |cs| && cs[r.value].positive
    ensures r.Some? ==> forall j :: 0 <= j < r.value ==> !cs[j].positive
    ensures r.None? <==> forall j :: 0 <= j < |cs| ==> !cs[j].positive
  {
    if cs == [] then None
    else if cs[0].positive then Some(0)
    else
      match FirstPositive(cs[1..])
      case None => None
      case Some(k) => Some(k + 1)
  }

  /**
   * What detection settles on after the completions `cs`: the firmware of the
   * first probe that answered; `null` once both probes have come back empty;
   * still open otherwise.
   */
  function Detected(cs: seq<Completion>): (r: Option<Option<BoardFirmware>>)
    ensures r.Some? && r.value.Some? ==> exists k :: 0 <= k < |cs| && cs[k].positive && cs[k].probe == r.value.value
    ensures r == Some(None) <==> |cs| == 2 && forall k :: 0 <= k < |cs| ==> !cs[k].positive
    ensures r.None? <==> |cs| != 2 && forall k :: 0 <= k < |cs| ==> !cs[k].positive
  {
    match FirstPositive(cs)
    case Some(k) => Some(Some(cs[k].probe))
    case None => if |cs| == 2 then Some(None) else None
  }

  /** The race of `detectFirmware`: the shared `resolved` counter and the promise it settles. */
  class Race {
    var resolved: int
    var settled: Option<Option<BoardFirmware>>

    constructor()
      ensures resolved == 0 && settled == None
    {
      resolved := 0;
      settled := None;
    }

    /**
     * One probe's `then` callback: count it; a positive answer resets the
     * counter and resolves with its firmware, a negative one resolves with
     * `null` when it is the second to arrive. Only the first resolution of the
     * promise takes effect.
     */
    method OnCompletion(c: Completion)
      modifies this
      ensures c.positive ==> resolved == 0
      ensures !c.positive ==> resolved == old(resolved) + 1
      ensures old(settled).Some? ==> settled == old(settled)
      ensures old(settled).None? && c.positive ==> settled == Some(Some(c.probe))
      ensures old(settled).None? && !c.positive ==> settled == (if resolved == 2 then Some(None) else None)
    {
      resolved := resolved + 1;
      if c.positive {
        resolved := 0;
        if settled.None? {
          settled := Some(Some(c.probe));
        }
        return;
      }
      if resolved == 2 && settled.None? {
        settled := Some(None);
      }
    }
  }

  /** The race run over the completions in the order they arrive: it settles exactly as `Detected` says. */
  method RunRace(cs: seq<Completion>) returns (settled: Option<Option<BoardFirmware>>)
    requires WellFormed(cs)
    ensures settled == Detected(cs)
  {
    var race := new Race();
    for i := 0 to |cs|
      invariant race.settled == Detected(cs[..i])
      invariant race.settled.None? ==> race.resolved == i
      invariant race.settled == Some(None) ==> i == 2
    {
      assert cs[..i + 1][..i] == cs[..i];
      race.OnCompletion(cs[i]);
      DetectedStep(cs[..i], cs[i]);
      assert cs[..i] + [cs[i]] == cs[..i + 1];
    }
    assert cs[..|cs|] == cs;
    settled := race.settled;
  }

  /** How one more completion moves `Detected`. */
  lemma DetectedStep(cs: seq<Completion>, c: Completion)
    ensures Detected(cs).Some? && Detected(cs).value.Some? ==> Detected(cs + [c]) == Detected(cs)
    ensures Detected(cs).None? && c.positive ==> Detected(cs + [c]) == Some(Some(c.probe))
    ensures Detected(cs).None? && !c.positive ==>
      Detected(cs + [c]) == (if |cs| + 1 == 2 then Some(None) else None)
  {
    var ds := cs + [c];
    assert forall j :: 0 <= j < |cs| ==> ds[j] == cs[j];
    if FirstPositive(cs).Some? {
      var k := FirstPositive(cs).value;
      assert FirstPositive(ds) == Some(k);
    } else if c.positive {
      assert ds[|cs|].positive;
      assert FirstPositive(ds).value == |cs|;
    } else {
      assert FirstPositive(ds).None?;
    }
  }

  /** Once detection has named a firmware, later completions cannot change it. */
  lemma {:induction false} FirmwareIsFinal(cs: seq<Completion>, more: seq<Completion>)
    requires Detected(cs).Some? && Detected(cs).value.Some?
    ensures Detected(cs + more) == Detected(cs)
    decreases |more|
  {
    if more != [] {
      DetectedStep(cs, more[0]);
      assert cs + more == (cs + [more[0]]) + more[1..];
      FirmwareIsFinal(cs + [more[0]], more[1..]);
    } else {
      assert cs + more == cs;
    }
  }

  /** Detection yields `null` exactly when both probes came back empty. */
  lemma NullIffBothNegative(cs: seq<Completion>)
    requires WellFormed(cs)
    ensures Detected(cs) == Some(None) <==> |cs| == 2 && !cs[0].positive && !cs[1].positive
  {
  }

  /** Whichever order the probes settle in, a firmware that answered is the one detected when the other did not. */
  lemma OrderDoesNotMatterForOneAnswer(a: Completion, b: Completion)
    requires a.probe != b.probe && a.positive && !b.positive
    ensures Detected([a, b]) == Detected([b, a]) == Some(Some(a.probe))
  {
    assert FirstPositive([b, a]) == Some(1);
  }

  /** When both answer, the first to arrive wins. */
  lemma FirstAnswerWins(a: Completion, b: Completion)
    requires a.positive && b.positive
    ensures Detected([a, b]) == Some(Some(a.probe))
  {
  }
}
