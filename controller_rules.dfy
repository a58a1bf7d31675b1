// Pure decision tables of the controller layer: the transfer settings chosen
// by sequence position and the order in which interrupt bits are examined.
module ControllerRules {
  import opened NtStatus
  import opened SkeletonI2c
  import opened Internal

  /**
   * g_TransferSettings: the controller settings row for a position.  The
   * first transfer of a sequence (or a single one) programs a start bit, the
   * last (or a single one) a stop bit; a transfer with a start bit needs a
   * free bus, any other a busy one, and only the invalid position leaves the
   * bus condition open.
   */
  function TransferSettingsFor(p: SequencePosition): (s: TransferSettings)
    ensures s.isStart <==> p == Single || p == First
    ensures s.isEnd <==> p == Single || p == Last
    ensures s.busCondition == if p == Invalid then DontCare else if s.isStart then Free else Busy
  {
    match p
    case Invalid => TransferSettings(DontCare, false, false)
    case Single => TransferSettings(Free, true, true)
    case First => TransferSettings(Free, true, false)
    case Continue => TransferSettings(Busy, false, false)
    case Last => TransferSettings(Busy, false, true)
  }

  /**
   * Hardware status bits the interrupt path tests, besides the request's
   * data-ready flag.  A real controller fills these in.
   */
  datatype StatusFlags = StatusFlags(
    addressNack: bv32,
    dataNack: bv32,
    genericError: bv32,
    transferComplete: bv32)

  /** The flags exactly as the skeleton defines them: all empty. */
  const SkeletonFlags := StatusFlags(StatusAddressNack, StatusDataNack, StatusGenericError, 0)

  /** What one batch of interrupt status bits asks the driver to do. */
  datatype InterruptAction =
    | AbortAddressNack
    | AbortDataNack
    | AbortError
    | Progress(dataReady: bool, transferComplete: bool)

  /**
   * The classification, in the driver's order: address NACK, data NACK,
   * other error, then data ready and transfer complete (which may both hold).
   * An address NACK always wins, and a data NACK wins over a generic error.
   */
  function Classify(flags: StatusFlags, status: bv32, dataReadyFlag: bv32): (a: InterruptAction)
    ensures a == AbortAddressNack <==> TestAnyBits(status, flags.addressNack)
    ensures a == AbortDataNack <==>
      !TestAnyBits(status, flags.addressNack) && TestAnyBits(status, flags.dataNack)
    ensures a == AbortError <==>
      !TestAnyBits(status, flags.addressNack) && !TestAnyBits(status, flags.dataNack) &&
      TestAnyBits(status, flags.genericError)
    ensures a.Progress? ==>
      a.dataReady == TestAnyBits(status, dataReadyFlag) &&
      a.transferComplete == TestAnyBits(status, flags.transferComplete)
  {
    if TestAnyBits(status, flags.addressNack) then AbortAddressNack
    else if TestAnyBits(status, flags.dataNack) then AbortDataNack
    else if TestAnyBits(status, flags.genericError) then AbortError
    else Progress(TestAnyBits(status, dataReadyFlag), TestAnyBits(status, flags.transferComplete))
  }

  /**
   * The request status an aborting interrupt records: no such device for an
   * address NACK, success (a short transfer) for a data NACK, and
   * unsuccessful for any other error.
   */
  function AbortStatus(a: InterruptAction): (s: Code)
    requires !a.Progress?
    ensures NtSuccess(s) <==> a == AbortDataNack
  {
    match a
    case AbortAddressNack => NoSuchDevice
    case AbortDataNack => Success
    case AbortError => Unsuccessful
  }

  /** A status word aborts the transfer exactly when it carries a bit of one of the error flags. */
  lemma {:induction false} AbortsOnAnyErrorBit(flags: StatusFlags, status: bv32, dataReadyFlag: bv32)
    ensures !Classify(flags, status, dataReadyFlag).Progress? <==>
      TestAnyBits(status, flags.addressNack | flags.dataNack | flags.genericError)
  {
    AnyBitsOfUnion3(status, flags.addressNack, flags.dataNack, flags.genericError);
    if !TestAnyBits(status, flags.addressNack) && !TestAnyBits(status, flags.dataNack) &&
       !TestAnyBits(status, flags.genericError) {
      assert Classify(flags, status, dataReadyFlag).Progress?;
    }
  }

  /** Extra status bits never override an address NACK: it is examined first. */
  lemma AddressNackWins(flags: StatusFlags, status: bv32, extra: bv32, dataReadyFlag: bv32)
    requires TestAnyBits(status, flags.addressNack)
    ensures Classify(flags, status | extra, dataReadyFlag) == AbortAddressNack
  {
  }

  /**
   * With the skeleton's flags no status word aborts a transfer or signals
   * its completion; only the request's own data-ready flag can act.
   */
  lemma SkeletonOnlyDataReadyActs(status: bv32, dataReadyFlag: bv32)
    ensures Classify(SkeletonFlags, status, dataReadyFlag) ==
      Progress(status & dataReadyFlag != 0, false)
  {
    SkeletonErrorTestsNeverFire(status);
  }

  /** The interrupt mask `mask` with the bits of `bits` removed. */
  function WithoutBits(mask: bv32, bits: bv32): bv32 {
    mask & !bits
  }

  /**
   * Removing bits from a mask leaves none of them set and keeps every other
   * bit of the mask.
   */
  lemma WithoutBitsClears(mask: bv32, bits: bv32)
    ensures !TestAnyBits(WithoutBits(mask, bits), bits)
    ensures WithoutBits(mask, bits) | (mask & bits) == mask
  {
  }
}
