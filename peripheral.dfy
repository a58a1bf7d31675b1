// The peripheral side of the driver: every client read, write and
// full-duplex request is handed to the real SPB controller through one
// reusable proxy request, and the client request is completed together
// with it.
module Peripheral {
  import opened NtStatus
  import opened Internal
  import opened DeviceRules

  /** A client request handle. */
  type ClientId = nat

  /** Which buffer of the client request a read or write uses. */
  datatype ClientBuffer = InputBuffer | OutputBuffer

  /** The operation the proxy request is formatted for. */
  datatype ProxyIo =
    | LockController
    | UnlockController
    | LockConnection
    | UnlockConnection
    | ReadInto(buffer: ClientBuffer)
    | WriteFrom(buffer: ClientBuffer)
    | ExecuteSequence(transfers: seq<TransferDescriptor>)
    | FullDuplexTransfer(transfers: seq<TransferDescriptor>)

  /** The four requests that carry no buffer at all. */
  predicate IsControl(io: ProxyIo) {
    io.LockController? || io.UnlockController? || io.LockConnection? || io.UnlockConnection?
  }

  /** One client request completed, with its status and byte count. */
  datatype ClientCompletion = ClientCompletion(request: ClientId, status: Code, bytes: nat)

  /**
   * The status of a chain of steps each of which runs only if all before it
   * succeeded: the first failing status, or success.
   */
  function FirstFailure(steps: seq<Code>): (s: Code)
    ensures NtSuccess(s) <==> forall i | 0 <= i < |steps| :: NtSuccess(steps[i])
    ensures NtSuccess(s) ==> s == Success
    ensures forall k | 0 <= k < |steps| && !NtSuccess(steps[k]) ::
      (forall j | 0 <= j < k :: NtSuccess(steps[j])) ==> s == steps[k]
  {
    if |steps| == 0 then Success
    else if !NtSuccess(steps[0]) then steps[0]
    else
      var s := FirstFailure(steps[1..]);
      assert forall k | 1 <= k < |steps| && !NtSuccess(steps[k]) ::
        (forall j | 0 <= j < k :: NtSuccess(steps[j])) ==> s == steps[k] by {
        forall k | 1 <= k < |steps| && !NtSuccess(steps[k]) &&
          (forall j | 0 <= j < k :: NtSuccess(steps[j]))
          ensures s == steps[k]
        {
          assert steps[1..][k - 1] == steps[k];
          forall j | 0 <= j < k - 1
            ensures NtSuccess(steps[1..][j])
          {
            assert steps[1..][j] == steps[j + 1];
          }
        }
      }
      s
  }

  /**
   * `status` agrees with `reported` on success and, on failure, is the
   * same status.
   */
  predicate SameVerdict(status: Code, reported: Code) {
    (NtSuccess(status) <==> NtSuccess(reported)) && (!NtSuccess(status) ==> status == reported)
  }

  /** Two steps run in order end with the verdict of FirstFailure. */
  lemma PreparedTwo(first: Code, second: Code, status: Code)
    requires status == if NtSuccess(first) then second else first
    ensures SameVerdict(status, FirstFailure([first, second]))
  {
    var steps := [first, second];
    assert steps[0] == first && steps[1] == second;
  }

  /** Four steps run in order, the last two only after the first two. */
  lemma PreparedFour(a: Code, b: Code, c: Code, d: Code, ab: Code, status: Code)
    requires SameVerdict(ab, FirstFailure([a, b]))
    requires status == if !NtSuccess(ab) then ab else if NtSuccess(c) then d else c
    ensures SameVerdict(status, FirstFailure([a, b, c, d]))
  {
    var pair := [a, b];
    assert pair[0] == a && pair[1] == b;
    var steps := [a, b, c, d];
    assert steps[0] == a && steps[1] == b && steps[2] == c && steps[3] == d;
  }

  /** Where a client request stands once an entry point has returned. */
  datatype Outcome =
    | Failed(status: Code)   // completed with this status and no bytes
    | Pending                // forwarded; the completion routine finishes it
    | Stranded               // not forwarded, yet not completed either

  /**
   * The outcome of preparing the proxy request (ending in `prepared`),
   * marking the client request cancellable and sending: the first failure
   * completes the client; a request the framework did not send fails with
   * the proxy request's own status, unless that status reads as success.
   */
  function SendOutcome(prepared: Code, markStatus: Code, sent: bool, requestStatus: Code): (o: Outcome)
    ensures !NtSuccess(prepared) ==> o == Failed(prepared)
    ensures o == Pending <==> NtSuccess(prepared) && NtSuccess(markStatus) && sent
    ensures o == Stranded <==>
      NtSuccess(prepared) && NtSuccess(markStatus) && !sent && NtSuccess(requestStatus)
    ensures o.Failed? ==> !NtSuccess(o.status)
  {
    if !NtSuccess(prepared) then Failed(prepared)
    else if !NtSuccess(markStatus) then Failed(markStatus)
    else if sent then Pending
    else if !NtSuccess(requestStatus) then Failed(requestStatus)
    else Stranded
  }

  /**
   * The proxy state kept in the device context: the saved client request,
   * the memory object holding a transfer list, the proxy request in flight
   * and whether the client request is marked cancellable.  `completed` logs
   * every client request completed.
   */
  class Proxy {
    var clientRequest: Option<ClientId>
    var inputMemory: bool
    var inFlight: Option<ProxyIo>
    var cancelable: bool
    ghost var completed: seq<ClientCompletion>

    /** The state OnD0Entry leaves: no input memory and an unused proxy request. */
    constructor()
      ensures Valid() && Idle() && completed == []
    {
      clientRequest := None;
      inputMemory := false;
      inFlight := None;
      cancelable := false;
      completed := [];
    }

    ghost predicate NoClientCompletedTwice()
      reads this
    {
      forall i, j | 0 <= i < j < |completed| :: completed[i].request != completed[j].request
    }

    /** `client` has not been completed yet. */
    ghost predicate NotCompleted(client: ClientId)
      reads this
    {
      forall c | c in completed :: c.request != client
    }

    /**
     * No client request is completed twice; the saved one is still
     * outstanding; a transfer-list memory object, a proxy request in flight
     * and a cancellable mark all belong to a saved client request.
     */
    ghost predicate Valid()
      reads this
    {
      NoClientCompletedTwice() &&
      (clientRequest.Some? ==> NotCompleted(clientRequest.value)) &&
      (inputMemory ==> clientRequest.Some?) &&
      (inFlight.Some? ==> clientRequest.Some?) &&
      (cancelable ==> inFlight.Some?)
    }

    /** Nothing is saved, allocated or in flight. */
    ghost predicate Idle()
      reads this
    {
      clientRequest.None? && !inputMemory && inFlight.None? && !cancelable
    }

    /**
     * The state an entry point leaves for `client`, relative to the log
     * `before`: completed with the failing status and no bytes, forwarded
     * as `io` (holding the transfer-list memory when `memory`), or left
     * saved with nothing in flight.
     */
    ghost predicate Reached(client: ClientId, io: ProxyIo, memory: bool, o: Outcome, before: seq<ClientCompletion>)
      reads this
    {
      match o
      case Failed(s) => Idle() && completed == before + [ClientCompletion(client, s, 0)]
      case Pending =>
        clientRequest == Some(client) && inFlight == Some(io) && cancelable &&
        inputMemory == memory && completed == before
      case Stranded =>
        clientRequest == Some(client) && inFlight.None? && !cancelable &&
        inputMemory == memory && completed == before
    }

    /**
     * SpbPeripheralCompleteRequestPair: makes the proxy request reusable,
     * frees the transfer-list memory and, if a client request is saved,
     * clears the slot before completing that request, so a second call
     * completes nothing.
     */
    method CompleteRequestPair(status: Code, bytes: nat)
      requires Valid() && !cancelable
      modifies this
      ensures Valid() && Idle()
      ensures completed == old(completed) +
        (if old(clientRequest).Some? then [ClientCompletion(old(clientRequest).value, status, bytes)] else [])
    {
      inFlight := None;
      if inputMemory {
        inputMemory := false;
      }
      if clientRequest.Some? {
        var client := clientRequest.value;
        clientRequest := None;
        completed := completed + [ClientCompletion(client, status, bytes)];
        forall i, j | 0 <= i < j < |completed|
          ensures completed[i].request != completed[j].request
        {
          if j == |completed| - 1 {
            assert completed[i] in old(completed);
          }
        }
      }
    }

    /**
     * SpbPeripheralSendRequest: marks the client request cancellable and, if
     * that succeeds, sends the proxy request.  A request the framework did
     * not send reports its own status and the client request is unmarked.
     */
    method SendRequest(client: ClientId, io: ProxyIo, markStatus: Code, sent: bool, requestStatus: Code)
      returns (status: Code)
      requires Valid() && clientRequest == Some(client) && inFlight.None? && !cancelable
      modifies this
      ensures Valid()
      ensures clientRequest == old(clientRequest) && inputMemory == old(inputMemory)
      ensures completed == old(completed)
      ensures inFlight == (if NtSuccess(markStatus) && sent then Some(io) else None)
      ensures cancelable <==> inFlight.Some?
      ensures status == (if !NtSuccess(markStatus) || sent then markStatus else requestStatus)
    {
      status := markStatus;
      if NtSuccess(status) {
        cancelable := true;
        if sent {
          inFlight := Some(io);
        } else {
          status := requestStatus;
          cancelable := false;
        }
      }
    }

    /**
     * The common tail of every entry point: once the proxy request is
     * prepared, mark and send it; any failure completes the pair with no
     * bytes.
     */
    method Forward(client: ClientId, io: ProxyIo, memory: bool, prepared: Code,
                   markStatus: Code, sent: bool, requestStatus: Code)
      requires Valid() && clientRequest == Some(client) && inFlight.None? && !cancelable
      requires NtSuccess(prepared) ==> inputMemory == memory
      modifies this
      ensures Valid()
      ensures Reached(client, io, memory, SendOutcome(prepared, markStatus, sent, requestStatus), old(completed))
    {
      var status := prepared;
      if NtSuccess(status) {
        status := SendRequest(client, io, markStatus, sent, requestStatus);
      }
      if !NtSuccess(status) {
        CompleteRequestPair(status, 0);
      }
    }

    /**
     * SpbPeripheralLock, SpbPeripheralUnlock, SpbPeripheralLockConnection and
     * SpbPeripheralUnlockConnection: save the client request, format the
     * proxy request for the control code and send it.
     */
    method ForwardControl(client: ClientId, io: ProxyIo, formatStatus: Code,
                          markStatus: Code, sent: bool, requestStatus: Code)
      requires Valid() && clientRequest.None? && NotCompleted(client) && IsControl(io)
      modifies this
      ensures Valid()
      ensures Reached(client, io, false, SendOutcome(formatStatus, markStatus, sent, requestStatus),
                      old(completed))
    {
      clientRequest := Some(client);
      Forward(client, io, false, formatStatus, markStatus, sent, requestStatus);
    }

    /**
     * SpbPeripheralRead: reads into the client's output buffer, or into its
     * input buffer for a full-duplex request.
     */
    method Read(client: ClientId, fullDuplex: bool, retrieveStatus: Code, formatStatus: Code,
                markStatus: Code, sent: bool, requestStatus: Code)
      requires Valid() && clientRequest.None? && NotCompleted(client)
      modifies this
      ensures Valid()
      ensures Reached(client, ReadInto(if fullDuplex then InputBuffer else OutputBuffer), false,
                      SendOutcome(FirstFailure([retrieveStatus, formatStatus]), markStatus, sent, requestStatus),
                      old(completed))
    {
      clientRequest := Some(client);
      var buffer := if fullDuplex then InputBuffer else OutputBuffer;
      var status := retrieveStatus;
      if NtSuccess(status) {
        status := formatStatus;
      }
      PreparedTwo(retrieveStatus, formatStatus, status);
      Forward(client, ReadInto(buffer), false, status, markStatus, sent, requestStatus);
    }

    /**
     * SpbPeripheralWrite: writes from the client's input buffer, or from its
     * output buffer for a full-duplex request.
     */
    method Write(client: ClientId, fullDuplex: bool, retrieveStatus: Code, formatStatus: Code,
                 markStatus: Code, sent: bool, requestStatus: Code)
      requires Valid() && clientRequest.None? && NotCompleted(client)
      modifies this
      ensures Valid()
      ensures Reached(client, WriteFrom(if fullDuplex then OutputBuffer else InputBuffer), false,
                      SendOutcome(FirstFailure([retrieveStatus, formatStatus]), markStatus, sent, requestStatus),
                      old(completed))
    {
      clientRequest := Some(client);
      var buffer := if fullDuplex then OutputBuffer else InputBuffer;
      var status := retrieveStatus;
      if NtSuccess(status) {
        status := formatStatus;
      }
      PreparedTwo(retrieveStatus, formatStatus, status);
      Forward(client, WriteFrom(buffer), false, status, markStatus, sent, requestStatus);
    }

    /**
     * SpbPeripheralWriteRead: builds a two-entry sequence, a write of the
     * client's input buffer then a read into its output buffer, each length
     * cast to 32 bits, in a new memory object, and sends it as a sequence.
     */
    method WriteRead(client: ClientId, inputLength: nat, outputLength: nat,
                     inputStatus: Code, outputStatus: Code, createStatus: Code, formatStatus: Code,
                     markStatus: Code, sent: bool, requestStatus: Code)
      requires Valid() && clientRequest.None? && NotCompleted(client)
      modifies this
      ensures Valid()
      ensures Reached(client,
                      ExecuteSequence(WriteReadList(inputLength % 0x1_0000_0000, outputLength % 0x1_0000_0000)),
                      true,
                      SendOutcome(FirstFailure([inputStatus, outputStatus, createStatus, formatStatus]),
                                  markStatus, sent, requestStatus),
                      old(completed))
    {
      clientRequest := Some(client);
      var status := inputStatus;
      if NtSuccess(status) {
        status := outputStatus;
      }
      PreparedTwo(inputStatus, outputStatus, status);
      var transfers := WriteReadList(inputLength % 0x1_0000_0000, outputLength % 0x1_0000_0000);
      var memoryStatus := status;
      if NtSuccess(status) {
        status := createStatus;
        if NtSuccess(status) {
          inputMemory := true;
          status := formatStatus;
        }
      }
      PreparedFour(inputStatus, outputStatus, createStatus, formatStatus, memoryStatus, status);
      Forward(client, ExecuteSequence(transfers), true, status, markStatus, sent, requestStatus);
    }

    /**
     * SpbPeripheralFullDuplex: builds a two-entry transfer list from the
     * client's write and read descriptors in a new memory object and sends
     * it as a full-duplex request.
     */
    method FullDuplex(client: ClientId, writeLength: nat, readLength: nat,
                      createStatus: Code, formatStatus: Code,
                      markStatus: Code, sent: bool, requestStatus: Code)
      requires Valid() && clientRequest.None? && NotCompleted(client)
      modifies this
      ensures Valid()
      ensures Reached(client, FullDuplexTransfer(WriteReadList(writeLength, readLength)), true,
                      SendOutcome(FirstFailure([createStatus, formatStatus]), markStatus, sent, requestStatus),
                      old(completed))
    {
      clientRequest := Some(client);
      var transfers := WriteReadList(writeLength, readLength);
      var status := createStatus;
      if NtSuccess(status) {
        inputMemory := true;
        status := formatStatus;
      }
      PreparedTwo(createStatus, formatStatus, status);
      Forward(client, FullDuplexTransfer(transfers), true, status, markStatus, sent, requestStatus);
    }

    /**
     * SpbPeripheralOnCompletion: the proxy request came back; the client
     * request is unmarked as cancellable (whatever that reports) and the
     * pair is completed with the proxy request's status and byte count.
     */
    method OnCompletion(ioStatus: Code, information: nat)
      requires Valid() && inFlight.Some?
      modifies this
      ensures Valid() && Idle()
      ensures completed == old(completed) + [ClientCompletion(old(clientRequest).value, ioStatus, information)]
    {
      cancelable := false;
      CompleteRequestPair(ioStatus, information);
    }

    /**
     * SpbRequestComplete on a client request the proxy never took: records
     * its completion with `status` and no bytes.
     */
    method CompleteClient(client: ClientId, status: Code)
      requires Valid() && clientRequest.None? && NotCompleted(client)
      modifies this
      ensures Valid()
      ensures clientRequest == old(clientRequest) && inputMemory == old(inputMemory)
      ensures inFlight == old(inFlight) && cancelable == old(cancelable)
      ensures completed == old(completed) + [ClientCompletion(client, status, 0)]
    {
      completed := completed + [ClientCompletion(client, status, 0)];
      forall i, j | 0 <= i < j < |completed|
        ensures completed[i].request != completed[j].request
      {
        if j == |completed| - 1 {
          assert completed[i] in old(completed);
        }
      }
    }
  }

  /** One line of a buffer dump: its offset and sixteen bytes. */
  datatype TraceRow = TraceRow(offset: nat, bytes: seq<bv8>)

  /** Byte `k` of `data`, or 0x00 past its end. */
  function ByteOrZero(data: seq<bv8>, k: nat): bv8 {
    if k < |data| then data[k] else 0
  }

  /**
   * `rows` dump `data`: one row per started block of sixteen bytes, row `i`
   * at offset 16 * i, bytes past the end printed as 0x00.
   */
  ghost predicate DumpOf(data: seq<bv8>, rows: seq<TraceRow>) {
    |rows| == (|data| + 15) / 16 &&
    forall i | 0 <= i < |rows| ::
      rows[i].offset == 16 * i && |rows[i].bytes| == 16 &&
      forall j | 0 <= j < 16 :: rows[i].bytes[j] == ByteOrZero(data, 16 * i + j)
  }

  /** The first `n` rows of a dump of `data`, all of them full. */
  ghost predicate FullRows(data: seq<bv8>, rows: seq<TraceRow>, n: nat) {
    |rows| == n && 16 * n <= |data| &&
    forall i | 0 <= i < n ::
      rows[i].offset == 16 * i && |rows[i].bytes| == 16 &&
      forall j | 0 <= j < 16 :: rows[i].bytes[j] == data[16 * i + j]
  }

  /**
   * SpbTraceBuffer: dumps a retrieved client buffer as full rows of sixteen
   * bytes followed by one zero-padded row for any remainder; nothing is
   * dumped if the buffer cannot be retrieved.
   */
  method TraceBuffer(retrieveStatus: Code, data: seq<bv8>) returns (rows: seq<TraceRow>)
    ensures !NtSuccess(retrieveStatus) ==> rows == []
    ensures NtSuccess(retrieveStatus) ==> DumpOf(data, rows)
  {
    rows := [];
    if !NtSuccess(retrieveStatus) {
      return;
    }
    var i := 0;
    while i < |data| / 16
      invariant 0 <= i <= |data| / 16
      invariant FullRows(data, rows, i)
    {
      rows := rows + [TraceRow(i * 16, data[i * 16 .. i * 16 + 16])];
      i := i + 1;
    }
    if i * 16 < |data| {
      var last := seq(16, j requires 0 <= j < 16 => ByteOrZero(data, i * 16 + j));
      rows := rows + [TraceRow(i * 16, last)];
    }
  }

  /** The bytes of `rows`, one row after another. */
  function Concat(rows: seq<TraceRow>): seq<bv8> {
    if rows == [] then [] else rows[0].bytes + Concat(rows[1..])
  }

  ghost predicate AllSixteen(rows: seq<TraceRow>) {
    forall i | 0 <= i < |rows| :: |rows[i].bytes| == 16
  }

  lemma {:induction false} ConcatLength(rows: seq<TraceRow>)
    requires AllSixteen(rows)
    ensures |Concat(rows)| == 16 * |rows|
  {
    if rows != [] {
      ConcatLength(rows[1..]);
    }
  }

  /** Byte `k` of the concatenated rows is byte k % 16 of row k / 16. */
  lemma {:induction false} ConcatAt(rows: seq<TraceRow>, k: nat)
    requires AllSixteen(rows) && k < 16 * |rows|
    ensures |Concat(rows)| == 16 * |rows|
    ensures Concat(rows)[k] == rows[k / 16].bytes[k % 16]
  {
    ConcatLength(rows);
    if k >= 16 {
      ConcatAt(rows[1..], k - 16);
      assert rows[1..][(k - 16) / 16] == rows[k / 16];
    }
  }

  /**
   * Reading a dump back: its rows, laid end to end, start with the whole
   * buffer and continue with zero padding only.
   */
  lemma DumpRoundTrip(data: seq<bv8>, rows: seq<TraceRow>)
    requires DumpOf(data, rows)
    ensures |data| <= |Concat(rows)| < |data| + 16
    ensures Concat(rows)[..|data|] == data
    ensures forall k | |data| <= k < |Concat(rows)| :: Concat(rows)[k] == 0
  {
    assert AllSixteen(rows);
    ConcatLength(rows);
    forall k | 0 <= k < |Concat(rows)|
      ensures Concat(rows)[k] == ByteOrZero(data, k)
    {
      ConcatAt(rows, k);
      assert 16 * (k / 16) + k % 16 == k;
    }
    assert Concat(rows)[..|data|] == data by {
      forall k | 0 <= k < |data|
        ensures Concat(rows)[..|data|][k] == data[k]
      {
        assert Concat(rows)[k] == ByteOrZero(data, k);
      }
    }
  }
}
