// A buffer described by a chain of memory descriptor lists, and the lookup
// of one byte of it by walking the chain.
module Mdl {
  import opened NtStatus

  /** One MDL of the chain: its bytes, and whether a system address can be had for them. */
  datatype Segment = Segment(bytes: seq<bv8>, mapped: bool)

  /** The whole buffer: the segments' bytes laid end to end. */
  function Flatten(chain: seq<Segment>): seq<bv8> {
    if chain == [] then [] else chain[0].bytes + Flatten(chain[1..])
  }

  /** Every segment of the chain can be mapped. */
  predicate AllMapped(chain: seq<Segment>) {
    forall i | 0 <= i < |chain| :: chain[i].mapped
  }

  /** What the walk finds at an offset. */
  datatype Found = Byte(value: bv8) | Unmapped | PastEnd

  /**
   * The segment holding byte `offset` of the chain and what it yields: the
   * byte when that segment is mapped, nothing when it is not, and nothing
   * when the chain ends first.
   */
  function Locate(chain: seq<Segment>, offset: nat): Found {
    if chain == [] then PastEnd
    else if offset < |chain[0].bytes| then
      (if chain[0].mapped then Byte(chain[0].bytes[offset]) else Unmapped)
    else Locate(chain[1..], offset - |chain[0].bytes|)
  }

  /**
   * The walk agrees with the flattened buffer: it runs off the end exactly
   * past the buffer's last byte, a byte it finds is the buffer's byte at
   * that offset, and on a fully mapped chain it finds every byte.
   */
  lemma {:induction false} LocateFlatten(chain: seq<Segment>, offset: nat)
    ensures Locate(chain, offset).PastEnd? <==> offset >= |Flatten(chain)|
    ensures Locate(chain, offset).Byte? ==>
      offset < |Flatten(chain)| && Locate(chain, offset).value == Flatten(chain)[offset]
    ensures AllMapped(chain) && offset < |Flatten(chain)| ==> Locate(chain, offset) == Byte(Flatten(chain)[offset])
  {
    if chain != [] {
      var n := |chain[0].bytes|;
      assert Flatten(chain) == chain[0].bytes + Flatten(chain[1..]);
      if offset >= n {
        LocateFlatten(chain[1..], offset - n);
        assert AllMapped(chain) ==> AllMapped(chain[1..]) by {
          if AllMapped(chain) {
            forall i | 0 <= i < |chain[1..]|
              ensures chain[1..][i].mapped
            {
              assert chain[1..][i] == chain[i + 1];
            }
          }
        }
      } else {
        assert AllMapped(chain) ==> chain[0].mapped;
      }
    }
  }

  /**
   * RequestGetByte: byte `index` of a transfer buffer of `mdlLength` bytes.
   * An index past the length, a chain that ends first, or a segment that
   * cannot be mapped all report STATUS_INFO_LENGTH_MISMATCH and leave
   * `byte` as it was (`prior`).
   */
  method RequestGetByte(chain: seq<Segment>, mdlLength: nat, index: nat, prior: bv8)
    returns (status: Code, byte: bv8)
    ensures status == Success || status == InfoLengthMismatch
    ensures index >= mdlLength ==> status == InfoLengthMismatch
    ensures index < mdlLength ==> (status == Success <==> Locate(chain, index).Byte?)
    ensures status == Success ==> index < |Flatten(chain)| && byte == Flatten(chain)[index]
    ensures status != Success ==> byte == prior
    ensures index < mdlLength <= |Flatten(chain)| && AllMapped(chain) ==>
      status == Success && byte == Flatten(chain)[index]
  {
    status := InfoLengthMismatch;
    byte := prior;
    LocateFlatten(chain, index);
    if index < mdlLength {
      var rest := chain;
      var currentOffset: nat := index;
      while rest != []
        invariant Locate(rest, currentOffset) == Locate(chain, index)
        invariant status == InfoLengthMismatch && byte == prior
        decreases |rest|
      {
        var count := |rest[0].bytes|;
        if currentOffset < count {
          if rest[0].mapped {
            byte := rest[0].bytes[currentOffset];
            status := Success;
          }
          break;
        }
        currentOffset := currentOffset - count;
        rest := rest[1..];
      }
    }
  }
}
