// Value types shared by the controller driver: the enumerations and records
// of the driver's internal header and the framework's transfer descriptors.
module Internal {

  datatype Option<T> = None | Some(value: T)

  /** Width of the target's bus address. */
  datatype AddressMode = SevenBit | TenBit

  /** Bus state a transfer expects when it starts. */
  datatype BusCondition = Free | Busy | DontCare

  /** Per-transfer controller settings: the bus condition and whether the
      transfer begins with a start bit and ends with a stop bit. */
  datatype TransferSettings = TransferSettings(
    busCondition: BusCondition,
    isStart: bool,
    isEnd: bool)

  /** Settings of one connected target, read from its connection descriptor. */
  datatype TargetSettings = TargetSettings(
    addressMode: AddressMode,
    address: bv32,
    connectionSpeed: bv32)

  /** Settings of a freshly allocated (zero-filled) target context. */
  const ZeroTargetSettings := TargetSettings(SevenBit, 0, 0)

  /** Direction of one transfer of a sequence. */
  datatype Direction = NoDirection | FromDevice | ToDevice

  /** Where a transfer sits in its sequence. */
  datatype SequencePosition = Invalid | Single | First | Continue | Last

  /** Kind of framework request the context belongs to. */
  datatype RequestType =
    | Undefined | Read | Write | Sequence
    | LockController | UnlockController | LockConnection | UnlockConnection
    | Other

  /** One transfer descriptor of a framework request. */
  datatype TransferDescriptor = TransferDescriptor(
    direction: Direction,
    delayInUs: nat,
    transferLength: nat)

  // Serial bus connection descriptor (section 6.4.3.8.2 of the ACPI
  // specification).  Only the fields the driver reads are kept.

  /** Serial bus type code of an I2C connection. */
  const I2cSerialBusType: bv8 := 0x01
  /** Serial bus type code of an SPI connection. */
  const SpiSerialBusType: bv8 := 0x02
  /** Type-specific flag bit selecting 10-bit I2C addressing. */
  const I2cTenBitAddressFlag: bv16 := 0x0001
  /** Size in bytes of the common serial bus descriptor header. */
  const SerialBusDescriptorSize: nat := 12

  /**
   * Connection properties handed to the driver for a target: the number of
   * valid property bytes and the header and I2C/SPI fields laid over them.
   * In the I2C layout the connection speed comes before the slave address.
   */
  datatype ConnectionProperties = ConnectionProperties(
    propertiesLength: nat,
    serialBusType: bv8,
    typeSpecificFlags: bv16,
    connectionSpeed: bv32,
    slaveAddress: bv16)
}
