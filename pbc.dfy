// The controller's request and transfer state machine.  The device, target
// and request contexts are classes whose fields the handlers update in place;
// each handler runs as one atomic step, standing for its critical section
// under the device lock.  Results of framework calls the handlers branch on
// (marking a request cancellable, unmarking it) are parameters.  Completing a
// request to the framework appends to a ghost log of completions.
module Pbc {
  import opened NtStatus
  import opened SkeletonI2c
  import opened Internal
  import opened ControllerRules
  import opened DeviceRules

  /** Target context: the settings read when the target connected. */
  class Target {
    var settings: TargetSettings

    constructor()
      ensures settings == ZeroTargetSettings
    {
      settings := ZeroTargetSettings;
    }

    /**
     * OnTargetConnect: the settings are parsed from the connection
     * properties, but the status returned is the one of opening the
     * underlying controller, which replaces the parser's status.  A target
     * that connects has no current request: it has no entry in the device's
     * `targetRequest` until a sequence starts on it.
     */
    method Connect(p: ConnectionProperties, openStatus: Code) returns (status: Code)
      modifies this
      ensures settings == TargetGetSettings(p, old(settings)).settings
      ensures status == openStatus
    {
      var r := TargetGetSettingsAsWritten(p, settings);
      AsWrittenParsesTheSame(p, settings);
      settings := r.settings;
      status := openStatus;
    }
  }

  /**
   * Request context.  `target` and `transfers` are the framework request's
   * target and transfer descriptors; the other fields are the context's own.
   * TransferCount, TransferIndex, TotalInformation, Status and IoComplete
   * persist across the whole sequence; Length, Position, Settings, Direction,
   * DelayInUs, DataReadyFlag and Information are reset for each transfer.
   */
  class Request {
    const target: Target
    const transfers: seq<TransferDescriptor>

    var kind: RequestType
    var transferCount: nat
    var transferIndex: nat
    var totalInformation: nat
    var status: Code
    var ioComplete: bool

    var length: nat
    var position: SequencePosition
    var settings: TransferSettings
    var direction: Direction
    var delayInUs: nat
    var dataReadyFlag: bv32
    var information: nat

    /** A fresh, zero-filled context for a framework request. */
    constructor(target: Target, transfers: seq<TransferDescriptor>)
      ensures this.target == target && this.transfers == transfers
      ensures kind == Undefined && transferCount == 0 && transferIndex == 0
      ensures totalInformation == 0 && status == Success && !ioComplete
      ensures length == 0 && position == Invalid && direction == NoDirection
      ensures delayInUs == 0 && dataReadyFlag == 0 && information == 0
    {
      this.target := target;
      this.transfers := transfers;
      kind := Undefined;
      transferCount := 0;
      transferIndex := 0;
      totalInformation := 0;
      status := Success;
      ioComplete := false;
      length := 0;
      position := Invalid;
      settings := TransferSettingsFor(Invalid);
      direction := NoDirection;
      delayInUs := 0;
      dataReadyFlag := 0;
      information := 0;
    }

    /** The per-transfer fields describe transfer `transferIndex`. */
    ghost predicate Configured()
      reads this
    {
      transferIndex < |transfers| &&
      length == transfers[transferIndex].transferLength &&
      direction == transfers[transferIndex].direction &&
      delayInUs == transfers[transferIndex].delayInUs &&
      information == 0 &&
      (kind == Sequence ==> position == PositionFor(transferCount, transferIndex))
    }

    /**
     * PbcRequestConfigureForIndex: copies descriptor `index` into the
     * per-transfer fields, clears the byte count and, for a sequence, sets
     * the position of the transfer.
     */
    method ConfigureForIndex(index: nat) returns (result: Code)
      requires index < |transfers|
      modifies this
      ensures result == Success
      ensures length == transfers[index].transferLength
      ensures direction == transfers[index].direction
      ensures delayInUs == transfers[index].delayInUs
      ensures information == 0
      ensures position == if kind == Sequence then PositionFor(transferCount, index) else old(position)
      ensures kind == old(kind) && transferCount == old(transferCount) && transferIndex == old(transferIndex)
      ensures totalInformation == old(totalInformation) && status == old(status)
      ensures ioComplete == old(ioComplete) && settings == old(settings) && dataReadyFlag == old(dataReadyFlag)
    {
      var d := transfers[index];
      length := d.transferLength;
      information := 0;
      direction := d.direction;
      delayInUs := d.delayInUs;
      if kind == Sequence {
        if transferCount == 1 {
          position := Single;
        } else if index == 0 {
          position := First;
        } else if index == transferCount - 1 {
          position := Last;
        } else {
          position := Continue;
        }
      }
      result := Success;
    }

    /**
     * ControllerTransferData: the skeleton moves no bytes in either
     * direction and always succeeds; the byte count grows by what was moved.
     */
    method TransferData() returns (result: Code, moved: nat)
      modifies this
      ensures result == Success && moved == 0
      ensures information == old(information) + moved
      ensures kind == old(kind) && transferCount == old(transferCount) && transferIndex == old(transferIndex)
      ensures totalInformation == old(totalInformation) && status == old(status) && ioComplete == old(ioComplete)
      ensures length == old(length) && position == old(position) && settings == old(settings)
      ensures direction == old(direction) && delayInUs == old(delayInUs) && dataReadyFlag == old(dataReadyFlag)
    {
      moved := 0;
      if direction == ToDevice {
        // A write would fetch its bytes from the transfer buffer here.
      } else {
        // A read would store its bytes into the transfer buffer here.
      }
      information := information + moved;
      result := Success;
    }
  }

  /** One request handed back to the framework, with its status and byte count. */
  datatype Completion = Completion(request: Request, status: Code, information: nat)

  /** The device fields and one request's fields a transfer step may change. */
  datatype Snapshot = Snapshot(
    currentTarget: Target?,
    interruptStatus: bv32,
    interruptMask: bv32,
    enabledMask: bv32,
    timerArmed: bool,
    status: Code,
    kind: RequestType,
    count: nat)

  /**
   * The device fields and one request's fields a transfer step's outcome is
   * stated over: `current` says the request is its target's current one and
   * the target the controller's, `holding` that the target has a request.
   */
  datatype View = View(
    currentTarget: Target?,
    interruptStatus: bv32,
    interruptMask: bv32,
    timerArmed: bool,
    current: bool,
    holding: bool,
    transfers: seq<TransferDescriptor>,
    kind: RequestType,
    count: nat,
    index: nat,
    status: Code,
    totalInformation: nat,
    ioComplete: bool,
    configured: bool,
    position: SequencePosition)

  /** A request the device is working on for target `t`. */
  ghost predicate Active(r: Request, t: Target)
    reads r
  {
    r.target == t && r.transferCount == |r.transfers| && !r.ioComplete &&
    r.information == 0 &&
    (r.transferIndex < r.transferCount ==> r.Configured())
  }

  /** Transfers of the sequence not yet started. */
  function Remaining(r: Request): nat
    reads r
  {
    if r.transferIndex < r.transferCount then r.transferCount - r.transferIndex else 0
  }

  /**
   * Device context.  `targetRequest` holds each target's current request
   * (the targets' pCurrentRequest fields); `enabledMask` is the interrupt
   * mask last handed to the controller's enable routine, 0 once disabled.
   */
  class Device {
    const flags: StatusFlags
    var currentTarget: Target?
    var targetRequest: map<Target, Request>
    var interruptStatus: bv32
    var interruptMask: bv32
    var enabledMask: bv32
    var timerArmed: bool
    ghost var completions: seq<Completion>

    constructor(flags: StatusFlags)
      ensures this.flags == flags
      ensures currentTarget == null && targetRequest == map[]
      ensures interruptStatus == 0 && interruptMask == 0 && enabledMask == 0
      ensures !timerArmed && completions == []
      ensures Valid()
    {
      this.flags := flags;
      currentTarget := null;
      targetRequest := map[];
      interruptStatus := 0;
      interruptMask := 0;
      enabledMask := 0;
      timerArmed := false;
      completions := [];
    }

    ghost function CompletedRequests(): set<Request>
      reads this
    {
      set c | c in completions :: c.request
    }

    ghost predicate NoDuplicateCompletions()
      reads this
    {
      forall i, j | 0 <= i < j < |completions| :: completions[i].request != completions[j].request
    }

    /**
     * Only the current target may have a current request; that request is
     * active and has not been completed; no request is completed twice.
     */
    ghost predicate Valid()
      reads this, targetRequest.Values
    {
      (currentTarget == null ==> targetRequest == map[]) &&
      (currentTarget != null ==> targetRequest.Keys <= {currentTarget}) &&
      (currentTarget != null && currentTarget in targetRequest ==>
        Active(targetRequest[currentTarget], currentTarget) &&
        targetRequest[currentTarget] !in CompletedRequests()) &&
      NoDuplicateCompletions()
    }

    /** `r` is the current request of the current target. */
    ghost predicate Current(r: Request)
      reads this
    {
      currentTarget == r.target && r.target in targetRequest && targetRequest[r.target] == r
    }

    predicate HasCurrent()
      reads this
    {
      currentTarget != null && currentTarget in targetRequest
    }

    function CurrentRequest(): Request
      requires HasCurrent()
      reads this
    {
      targetRequest[currentTarget]
    }

    ghost function Snap(r: Request): Snapshot
      reads this, r
    {
      Snapshot(currentTarget, interruptStatus, interruptMask, enabledMask,
               timerArmed, r.status, r.kind, r.transferCount)
    }

    /** `r` and the device fields a transfer step is judged by, as one value. */
    ghost function ViewOf(r: Request): View
      reads this, r
    {
      View(currentTarget, interruptStatus, interruptMask, timerArmed,
           Current(r), r.target in targetRequest, r.transfers, r.kind, r.transferCount,
           r.transferIndex, r.status, r.totalInformation, r.ioComplete, r.Configured(), r.position)
    }

    /**
     * The end of a transfer step relative to state `o`: when `finish`, the
     * request is marked complete, the mask is cleared, the target loses its
     * request and the controller its target unless a lock keeps it; otherwise
     * the request is still the current one.
     */
    ghost predicate Settled(v: View, finish: bool, o: Snapshot) {
      if finish then
        v.ioComplete && !v.holding && v.interruptMask == 0 &&
        v.currentTarget == (if v.kind == Sequence || v.position == Single then null else o.currentTarget)
      else
        !v.ioComplete && v.current &&
        v.currentTarget == o.currentTarget && v.interruptMask == o.interruptMask
    }

    /**
     * The state after the sequence resumes at transfer `j` from state `o`:
     * transfers run until StopFrom(j), which is either parked on the delay
     * timer or past the end, where the request is finished (if unmarking it
     * as cancellable succeeds or it was cancelled) or left for the cancel
     * routine.  Each transfer that ran reset the status and the saved
     * interrupt bits and enabled the interrupt mask.
     */
    ghost predicate Continued(r: Request, j: nat, unmarkOk: bool, o: Snapshot)
      reads this, r
    {
      ContinuedMask(ViewOf(r), j, unmarkOk, o, enabledMask)
    }

    /** Continued, over a view, with `e` standing for the enabled interrupt mask. */
    ghost predicate ContinuedMask(v: View, j: nat, unmarkOk: bool, o: Snapshot, e: bv32) {
      var k := StopFrom(v.transfers, j);
      v.kind == o.kind && v.count == o.count && v.index == k &&
      v.status == (if k == j then o.status else Success) &&
      v.interruptStatus == (if k == j then o.interruptStatus else 0) &&
      e == (if k == j then o.enabledMask else o.interruptMask) &&
      if k < |v.transfers| then
        v.configured && !v.ioComplete && v.current && v.timerArmed &&
        v.currentTarget == o.currentTarget &&
        v.interruptMask == o.interruptMask
      else
        v.timerArmed == o.timerArmed && Settled(v, v.status == Cancelled || unmarkOk, o)
    }

    /** The state after the current transfer is aborted from state `o`. */
    ghost predicate Aborted(r: Request, unmarkOk: bool, o: Snapshot)
      reads this, r
    {
      AbortedMask(ViewOf(r), unmarkOk, o, enabledMask)
    }

    /** Aborted, over a view, with `e` standing for the enabled interrupt mask. */
    ghost predicate AbortedMask(v: View, unmarkOk: bool, o: Snapshot, e: bv32) {
      v.kind == o.kind && v.count == o.count && v.status == o.status &&
      v.interruptStatus == o.interruptStatus && e == o.enabledMask &&
      v.timerArmed == o.timerArmed && Settled(v, o.status == Cancelled || unmarkOk, o)
    }

    /** SpbRequestComplete: hands `r` back to the framework. */
    method Complete(r: Request, status: Code, information: nat)
      requires NoDuplicateCompletions() && r !in CompletedRequests()
      modifies this
      ensures completions == old(completions) + [Completion(r, status, information)]
      ensures NoDuplicateCompletions()
      ensures currentTarget == old(currentTarget) && targetRequest == old(targetRequest)
      ensures interruptStatus == old(interruptStatus) && interruptMask == old(interruptMask)
      ensures enabledMask == old(enabledMask) && timerArmed == old(timerArmed)
    {
      completions := completions + [Completion(r, status, information)];
      forall i, j | 0 <= i < j < |completions|
        ensures completions[i].request != completions[j].request
      {
        if j == |completions| - 1 {
          assert completions[i] in old(completions);
        }
      }
    }

    /** PbcRequestComplete: completes `r` with its status and total byte count. */
    method RequestComplete(r: Request)
      requires NoDuplicateCompletions() && r !in CompletedRequests()
      modifies this
      ensures completions == old(completions) + [Completion(r, r.status, r.totalInformation)]
      ensures NoDuplicateCompletions()
      ensures currentTarget == old(currentTarget) && targetRequest == old(targetRequest)
      ensures interruptStatus == old(interruptStatus) && interruptMask == old(interruptMask)
      ensures enabledMask == old(enabledMask) && timerArmed == old(timerArmed)
    {
      Complete(r, r.status, r.totalInformation);
    }

    /**
     * PbcRequestDoTransfer: a transfer that asks for a delay is parked on the
     * delay timer (re-arming a running timer is only reported); any other is
     * started at once.  Because the skeleton completes transfers
     * synchronously, the sequence then runs on to its next delayed transfer
     * or its end.
     */
    method DoTransfer(r: Request, unmarkOk: bool)
      requires Valid() && Current(r) && r.transferIndex < r.transferCount
      modifies this, r
      decreases Remaining(r), 3
      ensures Valid() && completions == old(completions)
      ensures Continued(r, old(r.transferIndex), unmarkOk, old(Snap(r)))
      ensures r.totalInformation == old(r.totalInformation) && r.information == 0
      ensures r.transferIndex >= r.transferCount ==> r.settings == TransferSettingsFor(r.position)
    {
      if r.delayInUs > 0 {
        timerArmed := true;
      } else {
        ConfigureForTransfer(r, unmarkOk);
      }
    }

    /**
     * ControllerConfigureForTransfer: picks the settings row of the
     * transfer's position, resets the status and the saved interrupt bits,
     * enables the interrupt mask and, in the skeleton, completes the
     * transfer at once.
     */
    method ConfigureForTransfer(r: Request, unmarkOk: bool)
      requires Valid() && Current(r)
      modifies this, r
      decreases Remaining(r), 2
      ensures Valid() && completions == old(completions)
      ensures Continued(r, old(r.transferIndex) + 1, unmarkOk,
        old(Snap(r)).(status := Success, interruptStatus := 0, enabledMask := old(interruptMask)))
      ensures r.totalInformation == old(r.totalInformation) + old(r.information) && r.information == 0
      ensures r.transferIndex >= r.transferCount ==> r.settings == TransferSettingsFor(r.position)
    {
      r.settings := TransferSettingsFor(r.position);
      r.status := Success;
      interruptStatus := 0;
      enabledMask := interruptMask;
      ghost var o := Snap(r);
      CompleteTransfer(r, false, unmarkOk);
      assert Continued(r, old(r.transferIndex) + 1, unmarkOk, o);
    }

    /**
     * ControllerCompleteTransfer: adds the transfer's bytes to the request
     * total.  Unless aborting, moves on to the next transfer and starts it.
     * Otherwise, and after the last transfer, finishes the request if it was
     * cancelled or can be unmarked as cancellable; if unmarking fails the
     * request stays current for the cancel routine to finish.
     */
    method CompleteTransfer(r: Request, abort: bool, unmarkOk: bool)
      requires Valid() && Current(r)
      modifies this, r
      decreases Remaining(r), 1
      ensures Valid() && completions == old(completions)
      ensures r.totalInformation == old(r.totalInformation) + old(r.information)
      ensures r.information == 0
      ensures !abort ==> Continued(r, old(r.transferIndex) + 1, unmarkOk,
        if old(r.transferIndex) + 1 < old(r.transferCount) then old(Snap(r)).(status := Success) else old(Snap(r)))
      ensures abort ==> r.transferIndex == old(r.transferIndex) && Aborted(r, unmarkOk, old(Snap(r)))
      ensures r.transferIndex >= r.transferCount ==>
        r.settings == TransferSettingsFor(r.position) ||
        (r.settings == old(r.settings) && r.position == old(r.position))
    {
      r.totalInformation := r.totalInformation + r.information;
      r.information := 0;
      if abort {
        FinishRequest(r, unmarkOk);
      } else {
        NextTransfer(r, unmarkOk);
      }
    }

    /**
     * The non-aborting part of ControllerCompleteTransfer: advances the
     * transfer index and either starts the next transfer or, past the last
     * one, finishes the request.
     */
    method NextTransfer(r: Request, unmarkOk: bool)
      requires Valid() && Current(r)
      modifies this, r
      decreases Remaining(r), 0
      ensures Valid() && completions == old(completions)
      ensures r.totalInformation == old(r.totalInformation) && r.information == 0
      ensures Continued(r, old(r.transferIndex) + 1, unmarkOk,
        if old(r.transferIndex) + 1 < old(r.transferCount) then old(Snap(r)).(status := Success) else old(Snap(r)))
      ensures r.transferIndex >= r.transferCount ==>
        r.settings == TransferSettingsFor(r.position) ||
        (r.settings == old(r.settings) && r.position == old(r.position))
    {
      r.transferIndex := r.transferIndex + 1;
      if r.transferIndex < r.transferCount {
        var s := r.ConfigureForIndex(r.transferIndex);
        r.status := s;
        if NtSuccess(r.status) {
          DoTransfer(r, unmarkOk);
          return;
        }
      }
      FinishRequest(r, unmarkOk);
    }

    /**
     * The end of ControllerCompleteTransfer once no further transfer starts:
     * unless the request was cancelled, unmarking it as cancellable must
     * succeed; then the mask is cleared, the target loses its request, the
     * controller loses its target for a sequence or a single transfer, and
     * the request is marked complete (it is completed after the lock).
     */
    method FinishRequest(r: Request, unmarkOk: bool)
      requires Valid() && Current(r)
      modifies this, r
      ensures Valid() && completions == old(completions)
      ensures Settled(ViewOf(r), r.status == Cancelled || unmarkOk, old(Snap(r)))
      ensures interruptStatus == old(interruptStatus) && enabledMask == old(enabledMask)
      ensures timerArmed == old(timerArmed)
      ensures r.kind == old(r.kind) && r.transferCount == old(r.transferCount)
      ensures r.transferIndex == old(r.transferIndex) && r.status == old(r.status)
      ensures r.totalInformation == old(r.totalInformation) && r.information == old(r.information)
      ensures r.settings == old(r.settings) && r.position == old(r.position)
    {
      if r.status != Cancelled {
        if !unmarkOk {
          return;
        }
      }
      interruptMask := 0;
      targetRequest := targetRequest - {r.target};
      if r.kind == Sequence || r.position == Single {
        currentTarget := null;
      }
      r.ioComplete := true;
    }

    /** The slots and the interrupt and timer state are those of `o`. */
    ghost predicate SameDevice(r: Request, o: Snapshot)
      reads this, r
    {
      SameDeviceMask(ViewOf(r), o, enabledMask)
    }

    /** SameDevice, over a view, with `e` standing for the enabled interrupt mask. */
    ghost predicate SameDeviceMask(v: View, o: Snapshot, e: bv32) {
      v.currentTarget == o.currentTarget &&
      v.interruptStatus == o.interruptStatus && v.interruptMask == o.interruptMask &&
      e == o.enabledMask && v.timerArmed == o.timerArmed
    }

    /**
     * The state after the data paths of an interrupt ran from state `o` at
     * transfer `i`: on transfer complete the sequence continued with the
     * next transfer; otherwise at most the interrupt mask changed.
     */
    ghost predicate Progressed(r: Request, transferComplete: bool, unmarkOk: bool, i: nat, o: Snapshot)
      reads this, r
    {
      ProgressedMask(ViewOf(r), transferComplete, unmarkOk, i, o, enabledMask)
    }

    /** Progressed, over a view, with `e` standing for the enabled interrupt mask. */
    ghost predicate ProgressedMask(v: View, transferComplete: bool, unmarkOk: bool, i: nat, o: Snapshot, e: bv32) {
      if transferComplete then
        ContinuedMask(v, i + 1, unmarkOk, if i + 1 < o.count then o.(status := Success) else o, e)
      else
        v.index == i && v.status == o.status && !v.ioComplete && v.current && SameDeviceMask(v, o, e)
    }

    /**
     * What ControllerProcessInterrupts leaves, as view `v`, after status
     * bits `stat`, from state `o` with the request at transfer `i`, `total`
     * and `info` bytes, transfer length `length` and data-ready flag `drf`:
     * an abort with AbortStatus, keeping the transfer's bytes only on a data
     * NACK, or the data paths' progress.  `e` stands for the enabled
     * interrupt mask.
     */
    ghost predicate Serviced(v: View, stat: bv32, unmarkOk: bool, o: Snapshot,
                             i: nat, total: nat, info: nat, length: nat, drf: bv32, e: bv32)
    {
      var a := Classify(flags, stat, drf);
      if !a.Progress? then
        v.index == i &&
        v.totalInformation == total + (if a == AbortDataNack then info else 0) &&
        AbortedMask(v, unmarkOk, o.(status := AbortStatus(a)), e)
      else
        ProgressedMask(v, a.transferComplete, unmarkOk, i,
          o.(interruptMask := if a.dataReady && length == info then WithoutBits(o.interruptMask, drf) else o.interruptMask),
          e)
    }

    /**
     * An error path of ControllerProcessInterrupts, for error `a`: records
     * its AbortStatus, keeps the transfer's byte count only on a data NACK,
     * and aborts the transfer.
     */
    method AbortTransfer(r: Request, a: InterruptAction, unmarkOk: bool)
      requires Valid() && Current(r) && !a.Progress?
      modifies this, r
      ensures Valid() && completions == old(completions)
      ensures r.ioComplete <==> !Current(r)
      ensures old(interruptStatus) == 0 ==> interruptStatus == 0
      ensures r.transferIndex == old(r.transferIndex)
      ensures r.totalInformation == old(r.totalInformation) + (if a == AbortDataNack then old(r.information) else 0)
      ensures Aborted(r, unmarkOk, old(Snap(r)).(status := AbortStatus(a)))
    {
      r.status := AbortStatus(a);
      if a != AbortDataNack {
        r.information := 0;
      }
      CompleteTransfer(r, true, unmarkOk);
    }

    /**
     * ControllerProcessInterrupts: an address NACK, a data NACK or another
     * error (tested in that order) sets the request's status and aborts the
     * transfer.  Otherwise a data-ready bit moves data and, once no byte
     * remains, drops the data-ready flag from the mask; a transfer-complete
     * bit moves any remaining data and completes the transfer.
     */
    method ProcessInterrupts(r: Request, stat: bv32, unmarkOk: bool)
      requires Valid() && Current(r)
      modifies this, r
      ensures Valid() && completions == old(completions)
      ensures r.ioComplete <==> !Current(r)
      ensures old(interruptStatus) == 0 ==> interruptStatus == 0
      ensures Serviced(ViewOf(r), stat, unmarkOk, old(Snap(r)), old(r.transferIndex), old(r.totalInformation),
                       old(r.information), old(r.length), old(r.dataReadyFlag), enabledMask)
    {
      var a := Classify(flags, stat, r.dataReadyFlag);
      if !a.Progress? {
        AbortTransfer(r, a, unmarkOk);
      } else {
        ProgressTransfer(r, a, unmarkOk);
      }
    }

    /**
     * The data paths of ControllerProcessInterrupts.  On data ready, data
     * moves and, once none remains, the data-ready flag leaves the interrupt
     * mask; on transfer complete, any remaining data moves and the transfer
     * completes.  TransferData always reports success, so the aborts the
     * driver takes on a failed data transfer cannot happen and are not
     * written here.
     */
    method ProgressTransfer(r: Request, a: InterruptAction, unmarkOk: bool)
      requires Valid() && Current(r) && a.Progress?
      modifies this, r
      ensures Valid() && completions == old(completions)
      ensures r.ioComplete <==> !Current(r)
      ensures old(interruptStatus) == 0 ==> interruptStatus == 0
      ensures Progressed(r, a.transferComplete, unmarkOk, old(r.transferIndex),
                         old(Snap(r)).(interruptMask :=
                           if a.dataReady && old(r.length) == old(r.information)
                           then WithoutBits(old(interruptMask), old(r.dataReadyFlag)) else old(interruptMask)))
    {
      ghost var o := Snap(r).(interruptMask :=
        if a.dataReady && r.length == r.information
        then WithoutBits(interruptMask, r.dataReadyFlag) else interruptMask);
      if a.dataReady {
        DataReady(r);
      }
      assert Snap(r) == o && r.transferIndex == old(r.transferIndex) && !r.ioComplete && Current(r);
      if a.transferComplete {
        TransferComplete(r, unmarkOk);
      }
    }

    /**
     * The data-ready path of ControllerProcessInterrupts: moves data and,
     * once no byte of the transfer remains, removes the data-ready flag from
     * the interrupt mask.
     */
    method DataReady(r: Request)
      requires Valid() && Current(r)
      modifies this, r
      ensures Valid() && completions == old(completions)
      ensures Snap(r) == old(Snap(r)).(interruptMask :=
        if old(r.length) == old(r.information)
        then WithoutBits(old(interruptMask), old(r.dataReadyFlag)) else old(interruptMask))
      ensures targetRequest == old(targetRequest)
      ensures r.transferIndex == old(r.transferIndex) && !r.ioComplete
      ensures r.information == old(r.information) && r.totalInformation == old(r.totalInformation)
      ensures r.length == old(r.length) && r.dataReadyFlag == old(r.dataReadyFlag)
      ensures r.settings == old(r.settings) && r.position == old(r.position)
    {
      var _, _ := r.TransferData();
      if r.length - r.information == 0 {
        interruptMask := WithoutBits(interruptMask, r.dataReadyFlag);
      }
    }

    /**
     * The transfer-complete path of ControllerProcessInterrupts: moves any
     * data still remaining and completes the transfer.
     */
    method TransferComplete(r: Request, unmarkOk: bool)
      requires Valid() && Current(r)
      modifies this, r
      ensures Valid() && completions == old(completions)
      ensures r.ioComplete <==> !Current(r)
      ensures old(interruptStatus) == 0 ==> interruptStatus == 0
      ensures Progressed(r, true, unmarkOk, old(r.transferIndex), old(Snap(r)))
      ensures r.totalInformation == old(r.totalInformation) + old(r.information) && r.information == 0
    {
      if r.length - r.information > 0 {
        var _, _ := r.TransferData();
      }
      CompleteTransfer(r, false, unmarkOk);
    }

    /**
     * OnSequence: initialises the request, validates its transfers and
     * configures the first one before touching the device; any failure,
     * including a failure to mark the request cancellable (`markStatus`),
     * completes the request with that status.  Once the request is marked
     * cancellable it becomes the current request of the current target and
     * its first transfer starts; if the request finished meanwhile it is
     * completed after the lock is released.
     */
    method OnSequence(target: Target, r: Request, transferCount: nat, markStatus: Code, unmarkOk: bool)
      requires Valid()
      requires r.target == target && transferCount == |r.transfers| && transferCount >= 1
      requires currentTarget == null
      requires r !in CompletedRequests()
      modifies this, r
      ensures Valid()
      ensures r.kind == Sequence && r.transferCount == transferCount && r.totalInformation == 0
      ensures !AllWithinLimit(r.transfers) ==>
        completions == old(completions) + [Completion(r, InvalidParameter, 0)] &&
        targetRequest == old(targetRequest) && SameDevice(r, old(Snap(r)))
      ensures AllWithinLimit(r.transfers) && !NtSuccess(markStatus) ==>
        completions == old(completions) + [Completion(r, markStatus, 0)] &&
        targetRequest == old(targetRequest) && SameDevice(r, old(Snap(r)))
      ensures AllWithinLimit(r.transfers) && NtSuccess(markStatus) ==>
        var k := StopIndex(r.transfers, 0);
        r.transferIndex == k &&
        (k < transferCount ==>
          Current(r) && r.Configured() && timerArmed && !r.ioComplete &&
          completions == old(completions)) &&
        (k == transferCount && unmarkOk ==>
          currentTarget == null && target !in targetRequest &&
          completions == old(completions) + [Completion(r, Success, 0)]) &&
        (k == transferCount && !unmarkOk ==>
          Current(r) && !r.ioComplete && completions == old(completions))
    {
      r.kind := Sequence;
      r.totalInformation := 0;
      r.transferCount := transferCount;
      r.transferIndex := 0;
      r.ioComplete := false;
      var status := RequestValidate(r.transfers);
      if NtSuccess(status) {
        status := r.ConfigureForIndex(0);
      }
      if NtSuccess(status) {
        status := markStatus;
        if NtSuccess(status) {
          currentTarget := target;
          targetRequest := targetRequest[target := r];
          DoTransfer(r, unmarkOk);
          var completeRequest := r.ioComplete;
          if completeRequest {
            RequestComplete(r);
          }
        }
      }
      if !NtSuccess(status) {
        Complete(r, status, 0);
      }
    }

    /**
     * OnControllerLock: the target becomes the current target and the lock
     * request `r` is completed with success.
     */
    method OnControllerLock(target: Target, r: Request)
      requires Valid() && currentTarget == null && r !in CompletedRequests()
      modifies this
      ensures Valid()
      ensures currentTarget == target && targetRequest == old(targetRequest)
      ensures interruptStatus == old(interruptStatus) && interruptMask == old(interruptMask)
      ensures enabledMask == old(enabledMask) && timerArmed == old(timerArmed)
      ensures completions == old(completions) + [Completion(r, Success, 0)]
    {
      currentTarget := target;
      Complete(r, Success, 0);
    }

    /**
     * OnControllerUnlock: the controller no longer has a current target and
     * the unlock request `r` is completed with success.
     */
    method OnControllerUnlock(target: Target, r: Request)
      requires Valid() && currentTarget == target && target !in targetRequest
      requires r !in CompletedRequests()
      modifies this
      ensures Valid()
      ensures currentTarget == null && targetRequest == old(targetRequest)
      ensures interruptStatus == old(interruptStatus) && interruptMask == old(interruptMask)
      ensures enabledMask == old(enabledMask) && timerArmed == old(timerArmed)
      ensures completions == old(completions) + [Completion(r, Success, 0)]
    {
      currentTarget := null;
      Complete(r, Success, 0);
    }

    /**
     * OnCancel: does nothing unless `r` is the current request of the
     * current target.  Otherwise stops the delay timer, disables interrupts,
     * drops the saved interrupt bits, aborts the transfer with
     * STATUS_CANCELLED and completes the request after the lock.
     */
    method OnCancel(r: Request)
      requires Valid()
      modifies this, r
      ensures Valid()
      ensures !old(Current(r)) ==> unchanged(this) && unchanged(r)
      ensures old(Current(r)) ==>
        !timerArmed && interruptStatus == 0 && enabledMask == 0 &&
        r.status == Cancelled && r.transferIndex == old(r.transferIndex) &&
        Settled(ViewOf(r), true, old(Snap(r))) &&
        r.totalInformation == old(r.totalInformation) + old(r.information) &&
        completions == old(completions) + [Completion(r, Cancelled, old(r.totalInformation) + old(r.information))]
    {
      if currentTarget != r.target {
        return;
      }
      if !(r.target in targetRequest && targetRequest[r.target] == r) {
        return;
      }
      timerArmed := false;
      enabledMask := 0;
      interruptStatus := 0;
      r.status := Cancelled;
      CompleteTransfer(r, true, false);
      assert r.ioComplete;
      RequestComplete(r);
    }

    /**
     * OnInterruptIsr: `pending` is what the controller reports for the
     * enabled mask.  A non-zero report is recognised: it is added to the
     * saved interrupt bits and interrupts are disabled until the DPC runs.
     */
    method OnInterruptIsr(pending: bv32) returns (recognized: bool)
      requires Valid()
      modifies this
      ensures Valid()
      ensures recognized <==> pending & old(interruptMask) != 0
      ensures recognized ==>
        interruptStatus == old(interruptStatus) | (pending & old(interruptMask)) && enabledMask == 0
      ensures !recognized ==> interruptStatus == old(interruptStatus) && enabledMask == old(enabledMask)
      ensures currentTarget == old(currentTarget) && targetRequest == old(targetRequest)
      ensures interruptMask == old(interruptMask) && timerArmed == old(timerArmed)
      ensures completions == old(completions)
    {
      recognized := false;
      var stat := pending & interruptMask;
      if stat > 0 {
        recognized := true;
        interruptStatus := interruptStatus | stat;
        enabledMask := 0;
      }
    }

    /**
     * The locked part of OnInterruptDpc once it has taken non-zero saved
     * interrupt bits: acknowledges and processes them (Serviced), then
     * re-enables interrupts exactly when the mask is not empty, so a mask
     * cleared by a finished request leaves them as processing left them.
     * `processed` is the enabled mask processing left.
     */
    method ServiceInterrupts(r: Request, stat: bv32, unmarkOk: bool) returns (ghost processed: bv32)
      requires Valid() && Current(r) && interruptStatus == 0
      modifies this, r
      ensures Valid() && completions == old(completions)
      ensures r.ioComplete <==> !Current(r)
      ensures interruptStatus == 0
      ensures Serviced(ViewOf(r), stat, unmarkOk, old(Snap(r)), old(r.transferIndex), old(r.totalInformation),
                       old(r.information), old(r.length), old(r.dataReadyFlag), processed)
      ensures enabledMask == if interruptMask > 0 then interruptMask else processed
    {
      ProcessInterrupts(r, stat, unmarkOk);
      processed := enabledMask;
      ghost var v := ViewOf(r);
      var mask := interruptMask;
      if mask > 0 {
        enabledMask := mask;
      }
      assert ViewOf(r) == v;
    }

    /**
     * OnInterruptDpc: without a current target and request it does nothing.
     * Otherwise it takes the saved interrupt bits (leaving 0) and, if there
     * were any, services them and completes the request after the lock if
     * it finished, with the status and byte total the processing recorded.
     */
    method OnInterruptDpc(unmarkOk: bool) returns (ghost processed: bv32)
      requires Valid()
      modifies this, targetRequest.Values
      ensures Valid()
      ensures old(!HasCurrent() || interruptStatus == 0) ==>
        unchanged(this) && unchanged(old(targetRequest.Values))
      ensures old(HasCurrent()) ==> interruptStatus == 0
      ensures old(HasCurrent()) && old(interruptStatus) != 0 ==>
        var r := old(CurrentRequest());
        (r.ioComplete <==> !Current(r)) &&
        Serviced(ViewOf(r), old(interruptStatus), unmarkOk, old(Snap(r)).(interruptStatus := 0),
                 old(r.transferIndex), old(r.totalInformation), old(r.information), old(r.length),
                 old(r.dataReadyFlag), processed) &&
        enabledMask == (if interruptMask > 0 then interruptMask else processed) &&
        completions == old(completions) +
          (if r.ioComplete then [Completion(r, r.status, r.totalInformation)] else [])
    {
      processed := enabledMask;
      if currentTarget == null {
        return;
      }
      if currentTarget !in targetRequest {
        return;
      }
      var r := targetRequest[currentTarget];
      var stat := interruptStatus;
      interruptStatus := 0;
      if stat == 0 {
        return;
      }
      processed := ServiceInterrupts(r, stat, unmarkOk);
      CompleteIfFinished(r);
    }

    /**
     * The tail of OnInterruptDpc and OnDelayTimerExpired, after the lock:
     * a request the processing finished is completed with its status and
     * byte total; nothing else changes.
     */
    method CompleteIfFinished(r: Request)
      requires Valid() && r !in CompletedRequests() && (r.ioComplete <==> !Current(r))
      modifies this
      ensures Valid()
      ensures completions == old(completions) +
        (if r.ioComplete then [Completion(r, r.status, r.totalInformation)] else [])
      ensures ViewOf(r) == old(ViewOf(r)) && enabledMask == old(enabledMask)
    {
      var completeRequest := r.ioComplete;
      if completeRequest {
        RequestComplete(r);
      }
    }

    /**
     * OnDelayTimerExpired: the timer has fired.  Without a current target
     * and request nothing else happens; otherwise the parked transfer starts
     * and the sequence runs on, and a finished request is completed after
     * the lock.
     */
    method OnDelayTimerExpired(unmarkOk: bool)
      requires Valid()
      modifies this, targetRequest.Values
      ensures Valid()
      ensures !old(HasCurrent()) ==>
        !timerArmed && currentTarget == old(currentTarget) && targetRequest == old(targetRequest) &&
        interruptStatus == old(interruptStatus) && interruptMask == old(interruptMask) &&
        enabledMask == old(enabledMask) && completions == old(completions) &&
        unchanged(old(targetRequest.Values))
      ensures old(HasCurrent()) ==>
        var r := old(CurrentRequest());
        Continued(r, old(r.transferIndex) + 1, unmarkOk,
          old(Snap(r)).(timerArmed := false, status := Success, interruptStatus := 0,
                        enabledMask := old(interruptMask))) &&
        completions == old(completions) +
          (if r.ioComplete then [Completion(r, r.status, r.totalInformation)] else [])
    {
      timerArmed := false;
      if currentTarget == null {
        return;
      }
      if currentTarget !in targetRequest {
        return;
      }
      var r := targetRequest[currentTarget];
      ConfigureForTransfer(r, unmarkOk);
      CompleteIfFinished(r);
    }
  }
}
