// Constants and bit-test helpers of the skeleton I2C controller header.
module SkeletonI2c {

  /** Largest transfer, in bytes, the controller driver accepts. */
  const MaxTransferLength: nat := 0x1000

  // Hardware status bits.  The skeleton leaves every one of them 0, to be
  // filled in for a real controller.
  const StatusAddressNack: bv32 := 0x0
  const StatusDataNack: bv32 := 0x0
  const StatusGenericError: bv32 := 0x0

  /**
   * TestAnyBits: some bit of the mask `v2` is set in the value `v1`.  An
   * empty mask or value never matches.
   */
  function TestAnyBits(v1: bv32, v2: bv32): (b: bool)
    ensures b ==> v1 != 0 && v2 != 0
  {
    v1 & v2 != 0
  }

  /**
   * TestAllBits: every bit of the mask `v2` is set in the value `v1`, that
   * is, adding the mask to the value changes nothing.  An empty mask always
   * matches, and a non-empty mask that matches also matches "any".
   */
  function TestAllBits(v1: bv32, v2: bv32): (b: bool)
    ensures b <==> v1 | v2 == v1
    ensures v2 == 0 ==> b
    ensures b && v2 != 0 ==> TestAnyBits(v1, v2)
  {
    v1 & v2 == v2
  }

  /** Testing against a union of masks is testing against either of them. */
  lemma AnyBitsOfUnion(v: bv32, m1: bv32, m2: bv32)
    ensures TestAnyBits(v, m1 | m2) <==> TestAnyBits(v, m1) || TestAnyBits(v, m2)
  {
    assert v & (m1 | m2) == (v & m1) | (v & m2);
  }

  /** The same for a union of three masks. */
  lemma AnyBitsOfUnion3(v: bv32, m1: bv32, m2: bv32, m3: bv32)
    ensures TestAnyBits(v, m1 | m2 | m3) <==> TestAnyBits(v, m1) || TestAnyBits(v, m2) || TestAnyBits(v, m3)
  {
    AnyBitsOfUnion(v, m1 | m2, m3);
    AnyBitsOfUnion(v, m1, m2);
  }

  /**
   * With the skeleton's status constants, none of the NACK or error tests
   * can ever succeed, whatever the hardware reports.
   */
  lemma SkeletonErrorTestsNeverFire(status: bv32)
    ensures !TestAnyBits(status, StatusAddressNack)
    ensures !TestAnyBits(status, StatusDataNack)
    ensures !TestAnyBits(status, StatusGenericError)
  {
  }
}
