/**
 * The BlueGiga scan-response handler (`eventScanResponse`): turns one raw
 * advertisement `{data, sender, rssi}` into at most one `DetectedClient`
 * for the event manager's queue.
 */
module BeaconDecoder {
  import opened Wrappers
  import opened Bytes

  /** One decoded beacon observation, as the scan handler packages it. */
  datatype DetectedClient = DetectedClient(
    interfaceType: string,
    udid: string,
    beaconMac: string,
    majorNumber: int,
    minorNumber: int,
    tx: int,
    rssi: int)

  /** The four inclusive major/minor acceptance bounds of the BTLE configuration. */
  datatype BtleConfig = BtleConfig(majorMin: int, majorMax: int, minorMin: int, minorMax: int)

  /** The arguments the radio driver hands to the scan handler. */
  datatype ScanResponse = ScanResponse(data: seq<byte>, sender: seq<byte>, rssi: int)

  /**
   * What one scan response leads to: nothing, one detection, or the
   * `IndexError` raised by the unguarded read of the tx-power byte (index 29).
   */
  datatype ScanOutcome = NoDetection | Detected(client: DetectedClient) | TxPowerIndexError

  /** Frames of at most this many bytes are not beacons. */
  const MinFrameLength := 15
  const TxPowerIndex := 29

  /** Major number: bytes 25 (high) and 26 (low); 0 when the frame is too short to index both. */
  function MajorNumber(data: seq<byte>): (v: int)
    ensures 0 <= v < 65536
    ensures |data| > 26 ==> v == data[25] as int * 256 + data[26] as int
    ensures |data| <= 26 ==> v == 0
  {
    if |data| > 26 then Be16(data[25], data[26]) else 0
  }

  /** Minor number: bytes 27 (high) and 28 (low); 0 when the frame is too short to index both. */
  function MinorNumber(data: seq<byte>): (v: int)
    ensures 0 <= v < 65536
    ensures |data| > 28 ==> v == data[27] as int * 256 + data[28] as int
    ensures |data| <= 28 ==> v == 0
  {
    if |data| > 28 then Be16(data[27], data[28]) else 0
  }

  /** The configured range filter; both bounds of both ranges are inclusive. */
  predicate InRange(cfg: BtleConfig, major: int, minor: int) {
    && cfg.majorMin <= major <= cfg.majorMax
    && cfg.minorMin <= minor <= cfg.minorMax
  }

  /** The scan-response handler. */
  function EventScanResponse(cfg: BtleConfig, resp: ScanResponse): (r: ScanOutcome)
    ensures |resp.data| <= MinFrameLength ==> r == NoDetection
    ensures r.Detected? <==>
      |resp.data| > TxPowerIndex
      && InRange(cfg, resp.data[25] as int * 256 + resp.data[26] as int,
                      resp.data[27] as int * 256 + resp.data[28] as int)
    ensures r.TxPowerIndexError? <==>
      MinFrameLength < |resp.data| <= TxPowerIndex
      && InRange(cfg, MajorNumber(resp.data), MinorNumber(resp.data))
    ensures r.Detected? ==>
      && r.client.interfaceType == "btle"
      && r.client.majorNumber == resp.data[25] as int * 256 + resp.data[26] as int
      && r.client.minorNumber == resp.data[27] as int * 256 + resp.data[28] as int
      && Unhex(r.client.udid) == Some(resp.data[9..25])
      && Unhex(r.client.beaconMac) == Some(Reverse(resp.sender))
      && -128 <= r.client.tx <= 127 && ToUnsigned(r.client.tx) == resp.data[TxPowerIndex]
      && r.client.rssi == resp.rssi
  {
    var data := resp.data;
    if |data| <= MinFrameLength then NoDetection
    else
      var major := MajorNumber(data);
      var minor := MinorNumber(data);
      if !InRange(cfg, major, minor) then NoDetection
      else
        var udid := HexOf(PySlice(data, 9, 25));
        var beaconMac := HexOf(Reverse(resp.sender));
        if |data| <= TxPowerIndex then TxPowerIndexError
        else
          var txPower := ToSigned(data[TxPowerIndex]);
          assert PySlice(data, 9, 25) == data[9..25];
          HexRoundTrip(data[9..25]);
          HexRoundTrip(Reverse(resp.sender));
          UnsignedRoundTrip(data[TxPowerIndex]);
          Detected(DetectedClient("btle", udid, beaconMac, major, minor, txPower, resp.rssi))
  }

  /** The handler together with the queue it feeds: at most one client is put, at the end. */
  function HandleScanResponse(queue: seq<DetectedClient>, cfg: BtleConfig, resp: ScanResponse)
    : (r: Result<seq<DetectedClient>, ScanOutcome>)
    ensures r.Failure? <==> EventScanResponse(cfg, resp).TxPowerIndexError?
    ensures r.Failure? ==> r.error == TxPowerIndexError
    ensures r.Success? ==> queue <= r.value && |r.value| <= |queue| + 1
    ensures r.Success? && |r.value| == |queue| + 1 ==>
      EventScanResponse(cfg, resp) == Detected(r.value[|queue|])
    ensures |resp.data| <= MinFrameLength ==> r == Success(queue)
    ensures r.Success? ==>
      r.value == queue + (if EventScanResponse(cfg, resp).Detected? then [EventScanResponse(cfg, resp).client] else [])
  {
    match EventScanResponse(cfg, resp)
    case NoDetection => Success(queue)
    case Detected(c) => Success(queue + [c])
    case TxPowerIndexError => Failure(TxPowerIndexError)
  }

  /** Shapes of the rendered fields: the UUID is 32 digits, the address two digits per byte. */
  lemma DetectionShape(cfg: BtleConfig, resp: ScanResponse)
    requires EventScanResponse(cfg, resp).Detected?
    ensures var c := EventScanResponse(cfg, resp).client;
      && |c.udid| == 32
      && |c.beaconMac| == 2 * |resp.sender|
      && 0 <= c.majorNumber < 65536 && 0 <= c.minorNumber < 65536
      && -128 <= c.tx <= 127
  {}

  /** The UUID rendering obeys Python slice bounds: 2 * max(0, min(|data|, 25) - 9) digits. */
  lemma UdidLength(data: seq<byte>)
    ensures |HexOf(PySlice(data, 9, 25))| == 2 * Max(0, Min(|data|, 25) - 9)
  {}

  /**
   * A frame of 16 to 26 bytes decodes to major = minor = 0; if the configured
   * ranges admit zero it passes the filter and then fails on the tx-power byte.
   */
  lemma DefaultedZerosReachTxPowerError(cfg: BtleConfig, resp: ScanResponse)
    requires MinFrameLength < |resp.data| <= 26
    requires InRange(cfg, 0, 0)
    ensures EventScanResponse(cfg, resp) == TxPowerIndexError
    ensures HandleScanResponse([], cfg, resp).Failure?
  {}

  /** A full frame whose major/minor fall outside the configured range is dropped without error. */
  lemma OutOfRangeDropped(cfg: BtleConfig, resp: ScanResponse)
    requires |resp.data| > TxPowerIndex
    requires !InRange(cfg, MajorNumber(resp.data), MinorNumber(resp.data))
    ensures EventScanResponse(cfg, resp) == NoDetection
    ensures HandleScanResponse([], cfg, resp) == Success([])
  {}
}
