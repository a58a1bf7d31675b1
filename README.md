# SimplePeripheralBusProbe, modelled in Dafny

SimplePeripheralBusProbe is a skeleton Windows SPB (simple peripheral bus,
I2C/SPI) controller driver. It plays two roles:

- **Controller.** It takes sequence, lock and unlock requests from the SPB
  framework and steps a request context through its transfers: validate,
  configure the transfer's sequence position, start it or park it on the
  delay timer, service interrupts, complete the transfer and move on.
- **Peripheral proxy.** It hands client reads, writes, write-reads and
  full-duplex transfers to a real SPB controller underneath, through one
  reusable proxy request. The client request is completed together with the
  proxy request.

The model keeps each part in the form the driver gives it:

- **Pure decision tables are functions with lemmas.** These cover the
  transfer-settings table, the order of the interrupt tests, the sequence
  position rule, the connection-descriptor parser and the full-duplex check.
- **Loops are methods with invariants.** These are request validation, the
  hardware resource scan, the trace-dump row loop and the MDL chain walk.
- **Contexts the handlers update in place are classes.** The device, target
  and request contexts and the proxy state are classes whose methods say what
  they change.

Results of framework calls the code branches on are parameters of the
methods. These include marking and unmarking a request as cancellable,
sending, formatting, creating memory, retrieving buffers and the
controller's pending interrupt bits. Requests handed back to the framework
are appended to a ghost log of completions. No request is ever completed
twice.

Modules:

- `NtStatus`: NTSTATUS codes as `bv32` and the NT_SUCCESS test.
- `SkeletonI2c`: the controller header's constants and bit tests.
- `Internal`: the enumerations and records of the internal header.
- `ControllerRules`: the transfer-settings table, interrupt classification and mask arithmetic.
- `DeviceRules`: validation, sequence positions, where a synchronous run of transfers stops, target settings, the resource scan and the full-duplex check.
- `Pbc`: the Target, Request and Device classes and every controller callback.
- `Peripheral`: the proxy class and the trace dump.
- `Mdl`: the byte lookup through an MDL chain.
- `Dispatch`: the read, write, full-duplex and other-IOCTL callbacks.

## Model

| member | source | states |
|---|---|---|
| SkeletonI2c.TestAnyBits | skeletoni2c.h:76-84 | "Any bits" holds only when both words are non-empty. |
| SkeletonI2c.TestAllBits | skeletoni2c.h:86-94 | "All bits" holds exactly when the mask adds no bit to the value. An empty mask always matches, and a non-empty mask matched in full also matches "any bits". |
| SkeletonI2c.AnyBitsOfUnion3 | skeletoni2c.h:76-84 | The value meets the union of three masks exactly when it meets one of them. |
| SkeletonI2c.SkeletonErrorTestsNeverFire | skeletoni2c.h:67-69 | With the skeleton's zero status constants, the address-NACK, data-NACK and generic-error tests never succeed, whatever the status word. |
| ControllerRules.TransferSettingsFor | controller.cpp:28-40 | A start bit exactly for Single and First, and a stop bit exactly for Single and Last. A position with a start bit waits for a free bus, any other valid one runs on a busy bus, and only the invalid position is "don't care". |
| ControllerRules.Classify | controller.cpp:262-469 | An address NACK exactly when the status meets the address-NACK flag. Otherwise a data NACK exactly when the data-NACK flag is met, and otherwise a generic-error abort exactly when the error flag is met, so a data NACK wins over a generic error. On progress, data ready and transfer complete are exactly the tests of their flags. |
| ControllerRules.AbortsOnAnyErrorBit | controller.cpp:262-362 | The interrupt aborts the transfer exactly when the status meets one of the address-NACK, data-NACK and generic-error flags. |
| ControllerRules.AbortStatus | controller.cpp:262-362 | The status an aborting interrupt records is a success code exactly for a data NACK. An address NACK gives no-such-device and any other error gives unsuccessful. |
| ControllerRules.AddressNackWins | controller.cpp:262-296 | Extra status bits never override an address NACK, because it is tested first. |
| ControllerRules.SkeletonOnlyDataReadyActs | controller.cpp:262-420 | With the skeleton's flags, no status word aborts or completes a transfer. Only the request's data-ready flag can act. |
| ControllerRules.WithoutBitsClears | controller.cpp:412 | Removing the data-ready flag from the mask leaves none of its bits set and keeps every other bit of the mask. |
| DeviceRules.RequestValidate | device.cpp:1761-1814 | Success exactly when every descriptor is within SI2C_MAX_TRANSFER_LENGTH. Otherwise invalid parameter. |
| DeviceRules.PositionFor | device.cpp:1881-1896 | Never Invalid. Single exactly for a one-transfer sequence. Within the sequence, the position starts one exactly at index 0 and ends one exactly at the last index. |
| DeviceRules.PositionsFrameSequence | device.cpp:1869-1897 | Through the settings table, only the first transfer starts on a free bus with a start bit and only the last has a stop bit. Every later transfer runs on a busy bus. |
| DeviceRules.StopIndex | device.cpp:1918-1987 | A synchronous run from index i stops at the first transfer that asks for a delay, or at the end. Every transfer before it has no delay. |
| DeviceRules.StopIndexUnique | device.cpp:1918-1987 | Any index with StopIndex's three properties is StopIndex itself, so the stop point is well defined. |
| DeviceRules.TargetGetSettingsAsWritten | device.cpp:1682-1757 | As written, success exactly when the properties hold at least the 12-byte serial-bus header, whatever the bus type. A short buffer is an invalid parameter that keeps the previous settings, an I2C descriptor sets the I2C settings, an SPI descriptor sets only the connection speed, and an unsupported bus type keeps the previous settings. |
| DeviceRules.TargetGetSettingsStatus | device.cpp:1642-1757 | The corrected parser succeeds exactly when the properties hold at least the 12-byte serial-bus header and the bus type is I2C or SPI. Any failure is an invalid parameter that keeps the previous settings. |
| DeviceRules.I2cTargetSettings | device.cpp:1642-1757 | An I2C target takes its slave address and connection speed from the descriptor, and is ten-bit exactly when the 10-bit flag is set. |
| DeviceRules.SpiTargetSettings | device.cpp:1642-1757 | An SPI target takes only its connection speed from the descriptor. |
| DeviceRules.AsWrittenParsesTheSame | device.cpp:1642-1757 | The code as written and the corrected parser leave the same settings. They differ only in the reported status. |
| DeviceRules.UnsupportedBusReportedAsSuccess | device.cpp:1757 | A UART descriptor is reported as parsed successfully by the code as written, while the corrected parser reports invalid parameter. |
| DeviceRules.ScanResources | device.cpp:78-151 | STATUS_NOT_FOUND exactly when no resource is a serial I2C or SPI connection. Otherwise success, with the id of the first such connection. |
| DeviceRules.FullDuplexStatus | device.cpp:1034-1103 | A full-duplex list passes the checks exactly when it is a write then a read, both without delay. Otherwise it is an invalid parameter. |
| Pbc.Target.Connect | device.cpp:383-410 | The target's settings become what the parser as written leaves, and the callback returns the status of opening the underlying controller. |
| Pbc.Request.ConfigureForIndex | device.cpp:1818-1897 | The per-transfer fields describe descriptor `index`, the byte count is 0, and a sequence gets PositionFor(count, index). No other field changes. |
| Pbc.Request.TransferData | controller.cpp:477-549 | The skeleton's data transfer moves no bytes and succeeds. The byte count grows by what moved, and no other field changes. |
| Pbc.Device.constructor | internal.h:161-196 | A new device context has no current target and no requests, empty masks, no armed timer and no completions. |
| Pbc.Device.Complete | device.cpp:2141 | Appends one completion, keeps the log free of duplicates and changes no device field. |
| Pbc.Device.RequestComplete | device.cpp:2105-2146 | Completes the request with its status and its total byte count. |
| Pbc.Device.DoTransfer | device.cpp:1918-1987 | A delayed transfer arms the timer, and any other transfer starts. Either way the sequence runs on to StopFrom(transfers, i), parked there or finished (Continued). |
| Pbc.Device.ConfigureForTransfer | controller.cpp:111-213 | Selects the settings row for the position, resets the status and the saved interrupt bits, enables the mask, then completes the transfer and continues from the next index. |
| Pbc.Device.CompleteTransfer | controller.cpp:552-699 | Adds the transfer's bytes to the total. Without abort, the sequence continues from the next index. With abort, the index is kept and the request is finished (if cancelled or unmarked) or left current. |
| Pbc.Device.NextTransfer | controller.cpp:598-636 | Advances the index, and either configures and starts the next transfer or finishes the request past the last one. |
| Pbc.Device.FinishRequest | controller.cpp:637-699 | Unless the request was cancelled, a failed unmark leaves it current. Otherwise the mask is cleared, the target loses its request, a sequence or single transfer releases the controller, and the request is marked complete. |
| Pbc.Device.AbortTransfer | controller.cpp:262-362 | Records AbortStatus of the abort, keeps the transfer's bytes in the total only on a data NACK, and aborts. The index is unchanged, and the request leaves the target exactly when it is marked complete. |
| Pbc.Device.ProcessInterrupts | controller.cpp:219-469 | Serviced: an address NACK, data NACK or error (in that order) aborts with AbortStatus, keeping the index and adding bytes only on a data NACK. Otherwise data ready drops its flag from the mask once no byte remains, and transfer complete continues the sequence. |
| Pbc.Device.ProgressTransfer | controller.cpp:368-469 | The data-ready and transfer-complete paths: the mask loses the data-ready flag exactly when data was ready and no byte remains, and transfer complete continues the sequence (Progressed). |
| Pbc.Device.DataReady | controller.cpp:368-413 | Moves data, then removes the data-ready flag from the mask exactly when the transfer has no byte left. Nothing else changes. |
| Pbc.Device.TransferComplete | controller.cpp:420-469 | Moves any remaining data, then completes the transfer, so the sequence continues from the next index. |
| Pbc.Device.OnSequence | device.cpp:695-884 | A descriptor over the limit completes the request with invalid parameter. A failed mark completes it with the mark's status and no bytes. Otherwise the request runs to StopIndex(transfers, 0): parked on the timer, completed with success after the lock, or left current if unmarking fails. |
| Pbc.Device.OnControllerLock | device.cpp:459-521 | The target becomes the current target, and the lock request is completed with success. |
| Pbc.Device.OnControllerUnlock | device.cpp:527-593 | The controller has no current target, and the unlock request is completed with success. |
| Pbc.Device.OnCancel | device.cpp:1226-1372 | A request that is not the current one is ignored. The current one has its timer stopped, interrupts disabled and saved bits cleared, is aborted with STATUS_CANCELLED and is completed with its total bytes: the bytes counted before plus the current transfer's. |
| Pbc.Device.OnInterruptIsr | device.cpp:1385-1466 | Recognised exactly when the pending bits meet the mask. The recognised bits are added to the saved status, and interrupts are disabled. |
| Pbc.Device.ServiceInterrupts | device.cpp:1555-1604 | After processing, no saved bits remain and the request leaves the target exactly when it is complete. The request and device end as ProcessInterrupts promises (Serviced). The enabled mask is the new mask when it is non-empty, and otherwise the one processing left. |
| Pbc.Device.OnInterruptDpc | device.cpp:1468-1640 | Without a current request or saved bits, nothing changes. Otherwise the saved bits are taken and the request ends Serviced from the state after the swap. The enabled mask is the new mask when non-empty, else the one processing left. A finished request is completed with its status and total bytes, and no other completion is made. |
| Pbc.Device.CompleteIfFinished | device.cpp:1581-1628 | A request marked complete is handed back once, with its status and total bytes. An unfinished one is not, and no field the interrupt paths read changes. |
| Pbc.Device.OnDelayTimerExpired | device.cpp:1993-2100 | The timer is disarmed. A parked transfer starts and the sequence continues from the next index (Continued), and a finished request is completed. |
| Peripheral.FirstFailure | peripheral.cpp:734-940 | The status of steps run while the previous ones succeed: success exactly when every step succeeds, and otherwise the first failing step's status. |
| Peripheral.SendOutcome | peripheral.cpp:1136-1238 | The request is forwarded exactly when preparing, marking and sending all succeed. A failure completes it with a failing status. It is stranded exactly when an unsent proxy request reads as success. |
| Peripheral.Proxy.constructor | device.cpp:245-259 | The proxy starts idle, with no completions. |
| Peripheral.Proxy.CompleteRequestPair | peripheral.cpp:1449-1540 | The proxy becomes idle and frees its memory. A saved client request is completed once with the given status and bytes, and nothing else is completed. |
| Peripheral.Proxy.SendRequest | peripheral.cpp:1136-1238 | A failed mark returns its status. A sent request is in flight and cancellable. An unsent one returns the proxy request's status and is unmarked. |
| Peripheral.Proxy.Forward | peripheral.cpp:1136-1238 | After preparation, marks and sends. Any failure completes the pair with no bytes, so the state is Reached(SendOutcome). |
| Peripheral.Proxy.ForwardControl | peripheral.cpp:149-466 | Lock, unlock and their connection variants save the client, format, then send, reaching SendOutcome of the format status. |
| Peripheral.Proxy.Read | peripheral.cpp:542-635 | Reads into the output buffer, or the input buffer for full duplex. The outcome is SendOutcome of the retrieve-then-format chain. |
| Peripheral.Proxy.Write | peripheral.cpp:638-731 | Writes from the input buffer, or the output buffer for full duplex. The outcome is SendOutcome of the retrieve-then-format chain. |
| Peripheral.Proxy.WriteRead | peripheral.cpp:734-940 | Forwards the sequence [write input-length mod 2^32, read output-length mod 2^32] held in new memory. The outcome is SendOutcome of the four preparation steps. |
| Peripheral.Proxy.FullDuplex | peripheral.cpp:943-1133 | Forwards the write/read pair with zero delays, held in new memory. The outcome is SendOutcome of create-then-format. |
| Peripheral.Proxy.OnCompletion | peripheral.cpp:1241-1402 | The returning proxy request completes the saved client request with the proxy's status and byte count, and the proxy becomes idle. |
| Peripheral.Proxy.CompleteClient | device.cpp:1219 | A request the proxy never took is completed with the given status and no bytes. The proxy is untouched. |
| Peripheral.TraceBuffer | peripheral.cpp:469-539 | Nothing is dumped if the buffer cannot be retrieved. Otherwise the rows are the dump of the buffer (DumpOf): one row per started 16-byte block, at offset 16*i, zero-padded. |
| Peripheral.DumpRoundTrip | peripheral.cpp:469-539 | The dump's rows laid end to end give back the buffer, followed by fewer than 16 zero bytes. |
| Mdl.LocateFlatten | peripheral.h:92-167 | Walking the chain runs off the end exactly past the flattened buffer. A byte found is the flattened buffer's byte at that index, and a fully mapped chain finds every byte. |
| Mdl.RequestGetByte | peripheral.h:92-167 | An index at or past the length is a length mismatch. Otherwise success exactly when the walk finds a mapped byte, which is the flattened buffer's byte at the index. On failure the output byte is untouched. |
| Dispatch.OnRead | device.cpp:599-641 | A read request is forwarded as a plain (not full-duplex) read into the output buffer. |
| Dispatch.OnWrite | device.cpp:647-689 | A write request is forwarded as a plain write from the input buffer. |
| Dispatch.OnFullDuplex | device.cpp:991-1105 | Returns success exactly for a write/read pair without delays, which is forwarded unchanged. Otherwise invalid parameter, with the proxy untouched. |
| Dispatch.OnOther | device.cpp:1129-1220 | Only the full-duplex IOCTL is handled. Any other code is completed as not supported, and a rejected full-duplex list as invalid parameter. |

## Left out

- Tracing, WPP messages and `FuncEntry`/`FuncExit`: they have no effect on state.
- Interrupt-object and spin-lock synchronisation: each callback is one atomic step under the device lock. Concurrency between ISR, DPC, timer and cancel is not modelled.
- OnReleaseHardware, OnD0Entry (apart from the idle proxy state it sets up, which Peripheral.Proxy.constructor models), OnD0Exit, OnTargetDisconnect, OnOtherInCallerContext, SpbPeripheralOpen/Close and ControllerInitialize/Uninitialize: framework set-up and teardown with no decision logic beyond the open status, which Target.Connect takes as a parameter.
- SpbPeripheralOnCancel: it only asks the framework to cancel the sent proxy request, whose return then goes through OnCompletion.
- Hardware register access: ControllerGetInterruptStatus is modelled as the pending bits under the mask (`pending & mask`). ControllerEnableInterrupts and ControllerDisableInterrupts are modelled as the `enabledMask` field. ControllerAcknowledgeInterrupts is left out.
- Pbc.Request.TransferData: the skeleton moves no bytes and always succeeds, so the abort branches after a failed data transfer (controller.cpp:380-400 and 440-465) cannot run and are not written.
- Pbc.Device.DoTransfer: the message traced when WdfTimerStart finds the timer already running is left out. Only the armed timer is modelled.
- WDK numeric IOCTL values: Dispatch.ControlCode only tells the full-duplex IOCTL apart from the others.
- MDL pointers and buffer contents of the proxy's transfer list: the model keeps the list's shape (directions, delays and lengths) and which client buffer each entry uses.
- ULONG and size_t widths: only the `(ULONG)` length casts of SpbPeripheralWriteRead are modelled (mod 2^32). Byte totals are otherwise unbounded naturals.
- Commented-out code in OnFullDuplex and SpbPeripheralOnCompletion.
- Preconditions standing for framework guarantees:
  - queues are sequential, so the proxy slot is empty on entry;
  - an unlock comes with no outstanding sequence on the target;
  - a sequence has at least one transfer, and TransferCount equals the number of descriptors.
- Pbc.Device.OnSequence and Pbc.Device.OnControllerLock: both require `currentTarget == null`. This stands for the driver's own assertions (device.cpp:838 and device.cpp:503) that no target holds the controller lock when a sequence or a lock arrives.
- Pbc.Target.Connect: the driver clears the target's pCurrentRequest (device.cpp:395). The model has no such field; a target with no entry in `targetRequest` stands for it.
- DeviceRules.TargetGetSettingsAsWritten: only the 12-byte serial-bus header is length-checked (device.cpp:1682). The I2C and SPI fields after it (connection speed, slave address, type-specific flags) are read without a further length check, as in the driver. The model takes them as given fields of the descriptor and does not model reading past a short buffer.
- Peripheral.SendOutcome: the Stranded outcome (the proxy request was not sent, yet its status reads as success, peripheral.cpp:1205-1207) is kept as the code leaves it: neither pair member is completed. WDF reports a failure status for a request it did not send, so no input is known to reach it, and it is not listed as a finding.
- The proxy state and the controller's device context share one context in the driver. They are modelled as two classes because their fields are disjoint.
- Peripheral.Proxy.SendRequest: the result of unmarking after a failed send is only traced by the driver. The model always unmarks.

## Findings

| source | as written | input that shows it | evidently intended | confidence | as-written member | corrected member |
|---|---|---|---|---|---|---|
| device.cpp:1757 | PbcTargetGetSettings computes STATUS_INVALID_PARAMETER for a bus type other than I2C or SPI, traces it, then returns STATUS_SUCCESS | a descriptor holding at least the 12-byte serial-bus header, with bus type 3 (UART) | return the computed status, so an unsupported bus type is an invalid parameter | not executed | DeviceRules.UnsupportedBusReportedAsSuccess | DeviceRules.TargetGetSettingsStatus |
