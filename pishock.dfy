/**
 * PiShock firmware handling: the padding check that cuts a downloaded image at
 * the fixed flash boundary, and the choice of download URL.
 */
module PiShock {
  import opened Base

  /** Images are cut at this offset; everything from here on must be erase padding. */
  const TruncateSize: nat := 0x3ff000

  /** The value of an erased flash byte. */
  const Padding: bv8 := 0xff

  /** The thrown "Truncated part is not all 0xff" error, carrying the discarded tail. */
  datatype TruncateError = NotAllPadding(rest: seq<bv8>)

  /** Every byte is padding: the property the check is meant to establish. */
  predicate AllPadding(rest: seq<bv8>)
  {
    forall i :: 0 <= i < |rest| ==> rest[i] == Padding
  }

  /** `new Set(rest)`: the distinct byte values of the tail. */
  function Distinct(rest: seq<bv8>): set<bv8>
  {
    set b | b in rest
  }

  /** `rest.every((byte) => byte === v)`, element by element. */
  function Every(rest: seq<bv8>, v: bv8): bool
  {
    rest == [] || (rest[0] == v && Every(rest[1..], v))
  }

  /** The rejection test exactly as the source writes it. */
  predicate TailRejected(rest: seq<bv8>)
  {
    |Distinct(rest)| > 1 || !Every(rest, Padding)
  }

  lemma {:induction false} EveryMeansAll(rest: seq<bv8>, v: bv8)
    ensures Every(rest, v) <==> forall i :: 0 <= i < |rest| ==> rest[i] == v
  {
    if rest != [] {
      EveryMeansAll(rest[1..], v);
      assert forall i :: 1 <= i < |rest| ==> rest[i] == rest[1..][i - 1];
    }
  }

  /** The set-size clause adds nothing: the test rejects exactly the tails that are not all padding. */
  lemma RejectedIffNotPadding(rest: seq<bv8>)
    ensures TailRejected(rest) <==> !AllPadding(rest)
  {
    EveryMeansAll(rest, Padding);
    if AllPadding(rest) {
      if rest == [] {
        assert Distinct(rest) == {};
      } else {
        assert rest[0] in Distinct(rest);
        assert Distinct(rest) == {Padding};
      }
    }
  }

  /**
   * `truncateBinary` on the file's bytes: the first `TruncateSize` bytes when
   * the rest is all padding, otherwise the error (and nothing is written).
   */
  function TruncateBinary(data: seq<bv8>): (r: Result<seq<bv8>, TruncateError>)
    ensures r.Ok? <==> forall i :: TruncateSize <= i < |data| ==> data[i] == Padding
    ensures r.Ok? ==> |r.value| == Min(|data|, TruncateSize) && r.value <= data
    ensures r.Err? ==> |data| > TruncateSize && r.error.rest == data[TruncateSize..]
  {
    var cut := Min(|data|, TruncateSize);
    var truncated := data[..cut];
    var rest := data[cut..];
    RejectedIffNotPadding(rest);
    assert forall i :: TruncateSize <= i < |data| ==> data[i] == rest[i - cut];
    if TailRejected(rest) then
      Err(NotAllPadding(rest))
    else
      Ok(truncated)
  }

  /** An image that already fits below the boundary passes unchanged. */
  lemma ShortImageUnchanged(data: seq<bv8>)
    requires |data| <= TruncateSize
    ensures TruncateBinary(data) == Ok(data)
  {
    var r := TruncateBinary(data);
    assert r.Ok? && |r.value| == |data|;
    assert r.value == data[..|r.value|] == data;
  }

  /** Truncating an image a second time gives the same bytes. */
  lemma TruncateIdempotent(data: seq<bv8>)
    requires TruncateBinary(data).Ok?
    ensures TruncateBinary(TruncateBinary(data).value) == TruncateBinary(data)
  {
    ShortImageUnchanged(TruncateBinary(data).value);
  }

  /** A single non-padding byte past the boundary makes the call fail, and the error reports that tail. */
  lemma NonPaddingRejected(data: seq<bv8>, i: nat)
    requires TruncateSize <= i < |data| && data[i] != Padding
    ensures TruncateBinary(data) == Err(NotAllPadding(data[TruncateSize..]))
  {
  }

  // ---------------------------------------------------------------------------
  // Firmware URL

  const FirmwareUrlBase := "https://do.pishock.com/api/GetLatestFirmware?type="

  /**
   * `getPiShockFirmwareUrl`, given the answer to "Does your hub have USB-C?":
   * the fixed base followed by one type code, `3` exactly for a USB-C hub and
   * `4` otherwise.
   */
  function FirmwareUrl(usbC: bool): (url: string)
    ensures |url| == |FirmwareUrlBase| + 1
    ensures FirmwareUrlBase <= url
    ensures url[|url| - 1] == '3' <==> usbC
    ensures url[|url| - 1] == '4' <==> !usbC
  {
    FirmwareUrlBase + (if usbC then "3" else "4")
  }
}
