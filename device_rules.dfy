// The pure decisions the device layer takes on a request or a resource:
// request validation, the sequence position of each transfer, where a
// synchronous run of transfers stops, connection-descriptor parsing, the
// hardware resource scan and the full-duplex request check.
module DeviceRules {
  import opened NtStatus
  import opened SkeletonI2c
  import opened Internal
  import opened ControllerRules

  // ---------------------------------------------------------------------
  // Request validation

  /** A transfer the controller can carry out: not longer than the maximum. */
  predicate WithinLimit(d: TransferDescriptor) {
    d.transferLength <= MaxTransferLength
  }

  predicate AllWithinLimit(transfers: seq<TransferDescriptor>) {
    forall i | 0 <= i < |transfers| :: WithinLimit(transfers[i])
  }

  /**
   * PbcRequestValidate: checks the descriptors in order and rejects the
   * request at the first one longer than the controller's maximum.
   */
  method RequestValidate(transfers: seq<TransferDescriptor>) returns (status: Code)
    ensures status == Success <==> AllWithinLimit(transfers)
    ensures status != Success ==> status == InvalidParameter
  {
    status := Success;
    var i := 0;
    while i < |transfers|
      invariant 0 <= i <= |transfers|
      invariant forall j | 0 <= j < i :: WithinLimit(transfers[j])
    {
      if transfers[i].transferLength > MaxTransferLength {
        status := InvalidParameter;
        return;
      }
      i := i + 1;
    }
  }

  // ---------------------------------------------------------------------
  // Sequence position

  /** The position PbcRequestConfigureForIndex gives transfer `index` of a
      sequence of `count` transfers. */
  function PositionFor(count: nat, index: nat): (p: SequencePosition)
    ensures p != Invalid
    ensures p == Single <==> count == 1
    ensures index < count ==>
      ((p == Single || p == First) <==> index == 0) &&
      ((p == Single || p == Last) <==> index == count - 1)
  {
    if count == 1 then Single
    else if index == 0 then First
    else if index == count - 1 then Last
    else Continue
  }

  /**
   * Through the settings table, the positions frame every sequence: the
   * first transfer alone starts on a free bus with a start bit, the last
   * alone ends with a stop bit, and every later transfer runs on a busy bus.
   */
  lemma PositionsFrameSequence(count: nat, index: nat)
    requires index < count
    ensures TransferSettingsFor(PositionFor(count, index)).isStart <==> index == 0
    ensures TransferSettingsFor(PositionFor(count, index)).isEnd <==> index == count - 1
    ensures TransferSettingsFor(PositionFor(count, index)).busCondition == (if index == 0 then Free else Busy)
  {
  }

  // ---------------------------------------------------------------------
  // Synchronous progress of a sequence

  /**
   * The index at which a run of transfers that starts at `i` stops: the
   * first transfer from `i` on that asks for a delay (it is parked on the
   * delay timer), or the end of the list.
   */
  function StopIndex(ts: seq<TransferDescriptor>, i: nat): (k: nat)
    requires i <= |ts|
    ensures i <= k <= |ts|
    ensures k < |ts| ==> ts[k].delayInUs > 0
    ensures forall j | i <= j < k :: ts[j].delayInUs == 0
    decreases |ts| - i
  {
    if i == |ts| then i
    else if ts[i].delayInUs > 0 then i
    else StopIndex(ts, i + 1)
  }

  /** Where a run that resumes at index `j` stops; past the end nothing runs. */
  function StopFrom(ts: seq<TransferDescriptor>, j: nat): nat {
    if j < |ts| then StopIndex(ts, j) else j
  }

  /** StopIndex is the first delayed transfer: any index with the three
      properties of its contract is StopIndex itself. */
  lemma {:induction false} StopIndexUnique(ts: seq<TransferDescriptor>, i: nat, k: nat)
    requires i <= k <= |ts|
    requires k < |ts| ==> ts[k].delayInUs > 0
    requires forall j | i <= j < k :: ts[j].delayInUs == 0
    ensures StopIndex(ts, i) == k
    decreases |ts| - i
  {
    if i < k {
      StopIndexUnique(ts, i + 1, k);
    }
  }

  // ---------------------------------------------------------------------
  // Target settings from the connection descriptor

  datatype SettingsResult = SettingsResult(status: Code, settings: TargetSettings)

  /** Settings of an I2C target: slave address, addressing width from the
      10-bit flag, and connection speed. */
  function I2cSettings(p: ConnectionProperties): TargetSettings {
    TargetSettings(
      if p.typeSpecificFlags & I2cTenBitAddressFlag == 0 then SevenBit else TenBit,
      p.slaveAddress as bv32,
      p.connectionSpeed)
  }

  /** The settings PbcTargetGetSettings leaves behind: parsed fields for an
      I2C or SPI descriptor, the previous settings otherwise. */
  function ParsedSettings(p: ConnectionProperties, prior: TargetSettings): TargetSettings {
    if p.propertiesLength < SerialBusDescriptorSize then prior
    else if p.serialBusType == I2cSerialBusType then I2cSettings(p)
    else if p.serialBusType == SpiSerialBusType then prior.(connectionSpeed := p.connectionSpeed)
    else prior
  }

  /** PbcTargetGetSettings as written: once the serial-bus header is long
      enough it reports success whatever the bus type; a short header is an
      invalid parameter that keeps the previous settings. */
  function TargetGetSettingsAsWritten(p: ConnectionProperties, prior: TargetSettings): (r: SettingsResult)
    ensures r.status == Success <==> p.propertiesLength >= SerialBusDescriptorSize
    ensures r.status != Success ==> r == SettingsResult(InvalidParameter, prior)
    ensures r.status == Success && p.serialBusType == I2cSerialBusType ==> r.settings == I2cSettings(p)
    ensures r.status == Success && p.serialBusType == SpiSerialBusType ==>
      r.settings == prior.(connectionSpeed := p.connectionSpeed)
    ensures p.serialBusType != I2cSerialBusType && p.serialBusType != SpiSerialBusType ==> r.settings == prior
  {
    if p.propertiesLength < SerialBusDescriptorSize then SettingsResult(InvalidParameter, prior)
    else SettingsResult(Success, ParsedSettings(p, prior))
  }

  /** PbcTargetGetSettings returning the status it computes: an unsupported
      bus type is an invalid parameter. */
  function TargetGetSettings(p: ConnectionProperties, prior: TargetSettings): SettingsResult {
    if p.propertiesLength < SerialBusDescriptorSize then SettingsResult(InvalidParameter, prior)
    else if p.serialBusType == I2cSerialBusType || p.serialBusType == SpiSerialBusType then
      SettingsResult(Success, ParsedSettings(p, prior))
    else SettingsResult(InvalidParameter, prior)
  }

  /** The corrected parser succeeds exactly on a full header of an I2C or
      SPI descriptor, and any failure is an invalid parameter that leaves the
      previous settings in place. */
  lemma TargetGetSettingsStatus(p: ConnectionProperties, prior: TargetSettings)
    ensures TargetGetSettings(p, prior).status == Success <==>
      p.propertiesLength >= SerialBusDescriptorSize &&
      (p.serialBusType == I2cSerialBusType || p.serialBusType == SpiSerialBusType)
    ensures TargetGetSettings(p, prior).status != Success ==>
      TargetGetSettings(p, prior) == SettingsResult(InvalidParameter, prior)
  {
  }

  /** An I2C target takes its address, addressing width and speed from the
      descriptor. */
  lemma I2cTargetSettings(p: ConnectionProperties, prior: TargetSettings)
    requires p.propertiesLength >= SerialBusDescriptorSize && p.serialBusType == I2cSerialBusType
    ensures TargetGetSettings(p, prior).settings.address == p.slaveAddress as bv32
    ensures TargetGetSettings(p, prior).settings.connectionSpeed == p.connectionSpeed
    ensures TargetGetSettings(p, prior).settings.addressMode == TenBit <==>
      p.typeSpecificFlags & I2cTenBitAddressFlag != 0
  {
  }

  /** An SPI target only takes its connection speed from the descriptor. */
  lemma SpiTargetSettings(p: ConnectionProperties, prior: TargetSettings)
    requires p.propertiesLength >= SerialBusDescriptorSize && p.serialBusType == SpiSerialBusType
    ensures TargetGetSettings(p, prior).settings == prior.(connectionSpeed := p.connectionSpeed)
  {
  }

  /** The two versions differ only in the reported status. */
  lemma AsWrittenParsesTheSame(p: ConnectionProperties, prior: TargetSettings)
    ensures TargetGetSettingsAsWritten(p, prior).settings == TargetGetSettings(p, prior).settings
    ensures TargetGetSettings(p, prior).status == Success ==> TargetGetSettingsAsWritten(p, prior).status == Success
  {
  }

  /** A UART descriptor (bus type 3) is reported as parsed successfully by the
      code as written although no field of it was read. */
  lemma UnsupportedBusReportedAsSuccess()
    ensures var p := ConnectionProperties(SerialBusDescriptorSize, 0x03, 0, 400000, 0x50);
      TargetGetSettingsAsWritten(p, ZeroTargetSettings) == SettingsResult(Success, ZeroTargetSettings) &&
      TargetGetSettings(p, ZeroTargetSettings).status == InvalidParameter
  {
  }

  // ---------------------------------------------------------------------
  // Hardware resource scan

  /** A translated hardware resource; only connection resources matter. */
  datatype CmResource =
    | Connection(connectionClass: bv8, connectionType: bv8, idLowPart: bv32, idHighPart: bv32)
    | OtherResource

  const ConnectionClassSerial: bv8 := 0x02
  const ConnectionTypeSerialI2c: bv8 := 0x01
  const ConnectionTypeSerialSpi: bv8 := 0x02

  /** The 64-bit connection identifier of the peripheral, as two halves. */
  datatype ConnectionId = ConnectionId(lowPart: bv32, highPart: bv32)

  /** A serial I2C or SPI connection resource. */
  predicate IsSpbConnection(r: CmResource) {
    r.Connection? && r.connectionClass == ConnectionClassSerial &&
    (r.connectionType == ConnectionTypeSerialI2c || r.connectionType == ConnectionTypeSerialSpi)
  }

  /**
   * The resource loop of OnPrepareHardware: the first I2C or SPI connection
   * supplies the peripheral's connection id, later ones are only reported
   * as duplicates, and without any the device fails with STATUS_NOT_FOUND.
   */
  method ScanResources(resources: seq<CmResource>) returns (status: Code, id: Option<ConnectionId>)
    ensures status == NotFound <==> forall i | 0 <= i < |resources| :: !IsSpbConnection(resources[i])
    ensures status != NotFound ==> status == Success
    ensures id.None? <==> status == NotFound
    ensures id.Some? ==> exists i | 0 <= i < |resources| ::
      IsSpbConnection(resources[i]) &&
      id.value == ConnectionId(resources[i].idLowPart, resources[i].idHighPart) &&
      forall j | 0 <= j < i :: !IsSpbConnection(resources[j])
  {
    var found := false;
    ghost var first := 0;
    id := None;
    var i := 0;
    while i < |resources|
      invariant 0 <= i <= |resources|
      invariant found <==> id.Some?
      invariant !found ==> forall j | 0 <= j < i :: !IsSpbConnection(resources[j])
      invariant found ==> (first < i && IsSpbConnection(resources[first]) &&
        id.value == ConnectionId(resources[first].idLowPart, resources[first].idHighPart) &&
        forall j | 0 <= j < first :: !IsSpbConnection(resources[j]))
    {
      var r := resources[i];
      if r.Connection? {
        if r.connectionClass == ConnectionClassSerial &&
           (r.connectionType == ConnectionTypeSerialI2c || r.connectionType == ConnectionTypeSerialSpi) {
          if !found {
            id := Some(ConnectionId(r.idLowPart, r.idHighPart));
            found := true;
            first := i;
          }
        }
      }
      i := i + 1;
    }
    status := if found then Success else NotFound;
  }

  // ---------------------------------------------------------------------
  // Full-duplex requests

  /** The only transfer list a full-duplex request may carry: a write then a
      read, both without delay. */
  function WriteReadList(writeLength: nat, readLength: nat): seq<TransferDescriptor> {
    [TransferDescriptor(ToDevice, 0, writeLength), TransferDescriptor(FromDevice, 0, readLength)]
  }

  /**
   * The checks of OnFullDuplex: transfer count, directions, delays.  A list
   * passes exactly when it is a write/read pair without delays, and is
   * otherwise an invalid parameter.
   */
  function FullDuplexStatus(ts: seq<TransferDescriptor>): (s: Code)
    ensures s == Success || s == InvalidParameter
    ensures s == Success <==> |ts| == 2 && ts == WriteReadList(ts[0].transferLength, ts[1].transferLength)
  {
    if |ts| != 2 then InvalidParameter
    else if ts[0].direction != ToDevice || ts[1].direction != FromDevice then InvalidParameter
    else if ts[0].delayInUs != 0 || ts[1].delayInUs != 0 then InvalidParameter
    else Success
  }
}

