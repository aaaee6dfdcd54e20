// The applet manager's controllers (app/src/main/cpp/skyline/services/am/appletController.cpp):
// the message queue of ICommonStateGetter with the operation mode and the
// display resolution it implies, and the managed display layer of
// ISelfController.
//
// The numeric values of the message kinds, of the focus state and of the
// NoMessages result are declared in a header that is not part of this
// model: they are passed in where they are used. A reply is returned as the
// value(s) the command pushes.

module AppletController {
  import opened Wrappers
  import opened Common

  /** A queued message is pushed as its u32 value. */
  type Message = u32

  /** The console's mode, read from a boolean setting: false is handheld, true is docked. */
  datatype OperationMode = Handheld | Docked

  /** The mode's value as the guest reads it. */
  function ModeValue(m: OperationMode): (v: u8)
    ensures v == 0 <==> m == Handheld
    ensures v < 2
  {
    if m == Handheld then 0 else 1
  }

  /** `operationMode = static_cast<OperationMode>(GetBool("operation_mode"))`. */
  function ModeOfSetting(docked: bool): (m: OperationMode)
    ensures ModeValue(m) == if docked then 1 else 0
  {
    if docked then Docked else Handheld
  }

  /** The resolution applications render at by default in each mode. */
  function DefaultDisplayResolution(m: OperationMode): (r: (u32, u32))
    ensures m == Handheld ==> r == (HandheldResolutionW as u32, HandheldResolutionH as u32)
    ensures m == Docked ==> r == (DockedResolutionW as u32, DockedResolutionH as u32)
  {
    match m
    case Handheld => (HandheldResolutionW as u32, HandheldResolutionH as u32)
    case Docked => (DockedResolutionW as u32, DockedResolutionH as u32)
  }

  /** Both modes have a 16:9 picture, docked at one and a half times the
      handheld size in each direction. */
  lemma ResolutionsAreSixteenByNine(m: OperationMode)
    ensures 9 * DefaultDisplayResolution(m).0 == 16 * DefaultDisplayResolution(m).1
    ensures 2 * DefaultDisplayResolution(Docked).0 == 3 * DefaultDisplayResolution(Handheld).0
    ensures 2 * DefaultDisplayResolution(Docked).1 == 3 * DefaultDisplayResolution(Handheld).1
  {
  }

  // ---------------------------------------------------------------------------
  // The message queue
  // ---------------------------------------------------------------------------

  /** Taking the next message from a queue: an empty queue gives nothing and
      stays empty; otherwise the oldest message is taken and exactly it is
      removed. */
  function Receive(q: seq<Message>): (r: (Option<Message>, seq<Message>))
    ensures r.0.None? <==> q == []
    ensures r.0.None? ==> r.1 == q
    ensures r.0.Some? ==> q == [r.0.value] + r.1
  {
    if q == [] then (None, q) else (Some(q[0]), q[1..])
  }

  /** The messages read by receiving until the queue is empty. */
  function Drain(q: seq<Message>): (r: seq<Message>)
    decreases |q|
  {
    var (m, rest) := Receive(q);
    if m.None? then [] else [m.value] + Drain(rest)
  }

  /** Messages come out in the order they went in, each exactly once. */
  lemma {:induction false} DrainIsQueueOrder(q: seq<Message>)
    ensures Drain(q) == q
    decreases |q|
  {
    if q != [] {
      DrainIsQueueOrder(q[1..]);
    }
  }

  /** Queueing a message does not change which message is received next,
      unless the queue was empty, in which case it is the new one. */
  lemma QueueKeepsOrder(q: seq<Message>, m: Message)
    ensures Receive(q + [m]).0 == Some(if q == [] then m else q[0])
    ensures Receive(q + [m]).1 == (if q == [] then [] else Receive(q).1 + [m])
  {
    if q != [] {
      assert (q + [m])[1..] == q[1..] + [m];
    }
  }

  /** ICommonStateGetter: its message queue, whether the message event has
      been signalled, the focus state and the operation mode. */
  class CommonStateGetter {
    var messages: seq<Message>
    var messageSignalled: bool
    const focusState: u8
    const operationMode: OperationMode

    /** The mode comes from the `operation_mode` setting; the queue starts
        with one focus-state-change message, which signals the event. */
    constructor (dockedSetting: bool, focusStateChange: Message, focusState: u8)
      ensures operationMode == ModeOfSetting(dockedSetting)
      ensures messages == [focusStateChange] && messageSignalled
      ensures this.focusState == focusState
    {
      operationMode := ModeOfSetting(dockedSetting);
      this.focusState := focusState;
      messages := [];
      messageSignalled := false;
      new;
      QueueMessage(focusStateChange);
    }

    /** `QueueMessage`: appends the message and signals the event. */
    method QueueMessage(m: Message)
      modifies this
      ensures messages == old(messages) + [m] && messageSignalled
    {
      messages := messages + [m];
      messageSignalled := true;
    }

    /** `ReceiveMessage`: on an empty queue the reply carries the NoMessages
        result and no value (None); otherwise the oldest message. */
    method ReceiveMessage() returns (r: Option<Message>)
      modifies this
      ensures (r, messages) == Receive(old(messages))
      ensures messageSignalled == old(messageSignalled)
    {
      if |messages| == 0 {
        return None;
      }
      r := Some(messages[0]);
      messages := messages[1..];
    }

    /** `GetCurrentFocusState` pushes the focus state as a u8. */
    method GetCurrentFocusState() returns (v: u8)
      ensures v == focusState
    {
      v := focusState;
    }

    /** `GetOperationMode` pushes the mode as a u8: 0 handheld, 1 docked. */
    method GetOperationMode() returns (v: u8)
      ensures v == ModeValue(operationMode)
    {
      v := ModeValue(operationMode);
    }

    /** `GetPerformanceMode` pushes the operation mode's value widened to a
        u32: the reply of `GetOperationMode`, so the performance mode follows
        the operation mode. */
    method GetPerformanceMode() returns (v: u32)
      ensures v == ModeValue(operationMode)
    {
      var mode := GetOperationMode();
      v := mode as u32;
    }

    /** `GetDefaultDisplayResolution` pushes width then height for the mode. */
    method GetDefaultDisplayResolution() returns (width: u32, height: u32)
      ensures (width, height) == DefaultDisplayResolution(operationMode)
    {
      if operationMode == Handheld {
        width, height := HandheldResolutionW, HandheldResolutionH;
      } else if operationMode == Docked {
        width, height := DockedResolutionW, DockedResolutionH;
      }
    }
  }

  // ---------------------------------------------------------------------------
  // ISelfController
  // ---------------------------------------------------------------------------

  datatype LayerStatus = Uninitialized | Initialized

  /** The part of the GPU state the layer commands touch. */
  class Gpu {
    var layerStatus: LayerStatus

    constructor ()
      ensures layerStatus == Uninitialized
    {
      layerStatus := Uninitialized;
    }
  }

  /** `CreateManagedDisplayLayer`: an application may create one layer; a
      second one throws. The reply is layer ID 0. */
  method CreateManagedDisplayLayer(gpu: Gpu) returns (r: Result<u64>)
    modifies gpu
    ensures r.Err? <==> old(gpu.layerStatus) == Initialized
    ensures r.Ok? ==> r.value == 0
    ensures gpu.layerStatus == Initialized
  {
    if gpu.layerStatus == Initialized {
      return Err("The application is creating more than one layer");
    }
    gpu.layerStatus := Initialized;
    r := Ok(0);
  }

  /** Only the first of two layer creations succeeds. */
  method CreateTwice(gpu: Gpu) returns (first: Result<u64>, second: Result<u64>)
    requires gpu.layerStatus == Uninitialized
    modifies gpu
    ensures first == Ok(0) && second.Err?
  {
    first := CreateManagedDisplayLayer(gpu);
    second := CreateManagedDisplayLayer(gpu);
  }
}
