// The SPB callbacks that hand client I/O to the peripheral proxy: reads,
// writes, full-duplex transfers and the other-IOCTL entry point.
module Dispatch {
  import opened NtStatus
  import opened Internal
  import opened DeviceRules
  import opened Peripheral

  /** The IOCTL code of an other-IOCTL request, as far as the driver tells them apart. */
  datatype ControlCode = FullDuplexIoctl | OtherIoctl(code: nat)

  /** Preconditions shared by every entry point: the proxy is free and the client request outstanding. */
  ghost predicate Ready(proxy: Proxy, client: ClientId)
    reads proxy
  {
    proxy.Valid() && proxy.clientRequest.None? && proxy.NotCompleted(client)
  }

  /** OnRead: a plain read into the client's output buffer. */
  method OnRead(proxy: Proxy, client: ClientId, retrieveStatus: Code, formatStatus: Code,
                markStatus: Code, sent: bool, requestStatus: Code)
    requires Ready(proxy, client)
    modifies proxy
    ensures proxy.Valid()
    ensures proxy.Reached(client, ReadInto(OutputBuffer), false,
                          SendOutcome(FirstFailure([retrieveStatus, formatStatus]), markStatus, sent, requestStatus),
                          old(proxy.completed))
  {
    proxy.Read(client, false, retrieveStatus, formatStatus, markStatus, sent, requestStatus);
  }

  /** OnWrite: a plain write from the client's input buffer. */
  method OnWrite(proxy: Proxy, client: ClientId, retrieveStatus: Code, formatStatus: Code,
                 markStatus: Code, sent: bool, requestStatus: Code)
    requires Ready(proxy, client)
    modifies proxy
    ensures proxy.Valid()
    ensures proxy.Reached(client, WriteFrom(InputBuffer), false,
                          SendOutcome(FirstFailure([retrieveStatus, formatStatus]), markStatus, sent, requestStatus),
                          old(proxy.completed))
  {
    proxy.Write(client, false, retrieveStatus, formatStatus, markStatus, sent, requestStatus);
  }

  /**
   * OnFullDuplex: a list that is not exactly a write then a read, both
   * without delay, is an invalid parameter and the proxy is not touched;
   * an accepted list is forwarded unchanged and the callback reports
   * success whatever becomes of the forwarded request.
   */
  method OnFullDuplex(proxy: Proxy, client: ClientId, transfers: seq<TransferDescriptor>,
                      createStatus: Code, formatStatus: Code,
                      markStatus: Code, sent: bool, requestStatus: Code)
    returns (status: Code)
    requires Ready(proxy, client)
    modifies proxy
    ensures proxy.Valid()
    ensures status == Success <==>
      |transfers| == 2 && transfers == WriteReadList(transfers[0].transferLength, transfers[1].transferLength)
    ensures status != Success ==>
      status == InvalidParameter && unchanged(proxy)
    ensures status == Success ==>
      proxy.Reached(client, FullDuplexTransfer(transfers), true,
                    SendOutcome(FirstFailure([createStatus, formatStatus]), markStatus, sent, requestStatus),
                    old(proxy.completed))
  {
    status := FullDuplexStatus(transfers);
    if status == Success {
      proxy.FullDuplex(client, transfers[0].transferLength, transfers[1].transferLength,
                       createStatus, formatStatus, markStatus, sent, requestStatus);
    }
  }

  /**
   * OnOther: only the full-duplex IOCTL is handled; any other code is not
   * supported.  A request the callback rejects is completed right here,
   * with the rejecting status and no bytes.
   */
  method OnOther(proxy: Proxy, client: ClientId, code: ControlCode, transfers: seq<TransferDescriptor>,
                 createStatus: Code, formatStatus: Code,
                 markStatus: Code, sent: bool, requestStatus: Code)
    requires Ready(proxy, client)
    modifies proxy
    ensures proxy.Valid()
    ensures code.OtherIoctl? ==>
      proxy.clientRequest.None? && proxy.completed == old(proxy.completed) + [ClientCompletion(client, NotSupported, 0)]
    ensures code == FullDuplexIoctl && FullDuplexStatus(transfers) != Success ==>
      proxy.clientRequest.None? &&
      proxy.completed == old(proxy.completed) + [ClientCompletion(client, InvalidParameter, 0)]
    ensures code == FullDuplexIoctl && FullDuplexStatus(transfers) == Success ==>
      proxy.Reached(client, FullDuplexTransfer(transfers), true,
                    SendOutcome(FirstFailure([createStatus, formatStatus]), markStatus, sent, requestStatus),
                    old(proxy.completed))
  {
    var status := NotSupported;
    if code == FullDuplexIoctl {
      status := OnFullDuplex(proxy, client, transfers, createStatus, formatStatus, markStatus, sent, requestStatus);
    }
    if !NtSuccess(status) {
      proxy.CompleteClient(client, status);
    }
  }
}
