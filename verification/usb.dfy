/**
 The bulk USB stream adapter (mqtt_io/modules/stream/usb.py): `setup` finds
 the device by vendor and product id and resolves one IN and one OUT
 endpoint on the configured interface, `read` polls the IN endpoint, and
 `write` sends a byte string to the OUT endpoint in fixed-size frames.

 The adapter is a value: each operation takes the stream and the device's
 answers and returns the next stream together with what the Python method
 returns or raises. The calls the contracts track are appended to the
 stream's `trace`, so the contracts say which of them happen, in which order
 and with which arguments. `find_descriptor` and the `cfg[...]` lookup are
 not recorded.
 */
module Usb {
  import opened Transport
  import Framing

  /** The configuration keys the adapter reads: `vid`, `pid`, `read_size`,
      `read_timeout`, `write_size` and `interface`. */
  datatype Config = Config(
    vid: int,
    pid: int,
    readSize: int,
    readTimeout: int,
    writeSize: int,
    interface: int)

  datatype Direction = In | Out

  /** An endpoint descriptor; only its address matters to the adapter. */
  datatype Endpoint = Endpoint(address: byte)

  /** Bit 7 of bEndpointAddress is the transfer direction, set for IN
      (section 9.6.6 of the USB 2.0 specification). */
  function DirectionOf(e: Endpoint): (d: Direction)
    ensures d == In <==> e.address >= 0x80
    ensures d == Out <==> e.address < 0x80
  {
    if e.address & 0x80 == 0x80 then In else Out
  }

  /** The active configuration: the endpoint descriptors, in descriptor order,
      of each interface, keyed by the pair `cfg[...]` is indexed with (the
      configured interface and 0). */
  type Configuration = map<(int, int), seq<Endpoint>>

  /** A device `usb.core.find` returned, described by its answers to the calls
      `setup` makes on it. */
  datatype Device = Device(
    activeConfiguration: Reply<Configuration>,
    detachKernelDriver: Reply<()>,
    setConfiguration: Reply<()>)

  /** The calls on the USB library and the device that the contracts track. */
  datatype Call =
    | Find(vid: int, pid: int)
    | GetActiveConfiguration
    | DetachKernelDriver(interface: int)
    | SetConfiguration
    | EndpointRead(endpoint: Endpoint, size: int, timeout: int)
    | EndpointWrite(endpoint: Endpoint, frame: seq<byte>)

  /** `setup` has not completed yet, or it has and resolved both endpoints. */
  datatype State = Unopened | Open(epIn: Endpoint, epOut: Endpoint)

  datatype Stream = Stream(config: Config, state: State, trace: seq<Call>)

  /** Why `setup` raised. */
  datatype SetupError =
    | DeviceNotFound
    | ConfigurationRaised
    | InterfaceNotFound
    | EndpointNotFound(direction: Direction)

  /** Why `write` raised: `range` refuses a zero step, or the write of frame
      `frame` raised on the device. */
  datatype WriteError = ZeroWriteSize | FrameWriteRaised(frame: nat)

  /** The interface number `setup` hands to `detach_kernel_driver`: a
      constant, whatever interface the configuration names. */
  const DetachedInterface: int := 1

  predicate HasDirection(eps: seq<Endpoint>, d: Direction)
  {
    exists i :: 0 <= i < |eps| && DirectionOf(eps[i]) == d
  }

  /** `e` is the first endpoint of `eps`, in descriptor order, whose direction is `d`. */
  predicate IsFirst(eps: seq<Endpoint>, d: Direction, e: Endpoint)
  {
    exists i ::
      && 0 <= i < |eps|
      && eps[i] == e
      && DirectionOf(eps[i]) == d
      && forall j :: 0 <= j < i ==> DirectionOf(eps[j]) != d
  }

  /** The device answers leave `setup` something to bind to: the device is
      present, reports its configuration, has the interface, and the
      interface has an IN and an OUT endpoint. */
  predicate Usable(interface: int, found: Option<Device>)
  {
    && found.Some?
    && found.value.activeConfiguration.Returns?
    && (interface, 0) in found.value.activeConfiguration.value
    && HasDirection(found.value.activeConfiguration.value[(interface, 0)], In)
    && HasDirection(found.value.activeConfiguration.value[(interface, 0)], Out)
  }

  /** The search `usb.util.find_descriptor` makes with a direction match: the
      position of the first endpoint with direction `d`, if there is one. */
  function FirstIndex(eps: seq<Endpoint>, d: Direction): (r: Option<nat>)
    ensures r.None? <==> !HasDirection(eps, d)
    ensures r.Some? ==>
      && r.value < |eps|
      && DirectionOf(eps[r.value]) == d
      && forall j :: 0 <= j < r.value ==> DirectionOf(eps[j]) != d
    decreases |eps|
  {
    if |eps| == 0 then
      None
    else if DirectionOf(eps[0]) == d then
      Some(0)
    else
      match FirstIndex(eps[1..], d)
      case None => None
      case Some(i) => Some(i + 1)
  }

  /**
   `setup_module`. Without a device it raises before touching anything else.
   Otherwise it asks for the active configuration, takes the first IN and the
   first OUT endpoint of interface (`interface`, 0), and raises if either is
   missing. Detaching the kernel driver and setting the configuration are
   attempted last, and their failures do not stop setup from completing.
   */
  function Setup(s: Stream, found: Option<Device>): (out: (Stream, Result<(), SetupError>))
    requires s.state.Unopened?
    ensures out.0.config == s.config
    ensures out.1.Ok? <==> Usable(s.config.interface, found)
    ensures out.1.Err? ==> out.0.state.Unopened?
    ensures found.None? ==>
      out.1 == Err(DeviceNotFound) && out.0.trace == s.trace + [Find(s.config.vid, s.config.pid)]
    ensures found.Some? && found.value.activeConfiguration.Raises? ==>
      out.1 == Err(ConfigurationRaised)
    ensures out.1 == Err(InterfaceNotFound) <==>
      && found.Some?
      && found.value.activeConfiguration.Returns?
      && (s.config.interface, 0) !in found.value.activeConfiguration.value
    ensures out.1 == Err(EndpointNotFound(In)) <==>
      && found.Some?
      && found.value.activeConfiguration.Returns?
      && (s.config.interface, 0) in found.value.activeConfiguration.value
      && !HasDirection(found.value.activeConfiguration.value[(s.config.interface, 0)], In)
    ensures out.1 == Err(EndpointNotFound(Out)) <==>
      && found.Some?
      && found.value.activeConfiguration.Returns?
      && (s.config.interface, 0) in found.value.activeConfiguration.value
      && HasDirection(found.value.activeConfiguration.value[(s.config.interface, 0)], In)
      && !HasDirection(found.value.activeConfiguration.value[(s.config.interface, 0)], Out)
    ensures found.Some? && out.1.Err? ==>
      out.0.trace == s.trace + [Find(s.config.vid, s.config.pid), GetActiveConfiguration]
    ensures out.1.Ok? ==>
      var eps := found.value.activeConfiguration.value[(s.config.interface, 0)];
      && out.0.state.Open?
      && IsFirst(eps, In, out.0.state.epIn)
      && IsFirst(eps, Out, out.0.state.epOut)
      && out.0.trace == s.trace + [Find(s.config.vid, s.config.pid), GetActiveConfiguration,
                                   DetachKernelDriver(DetachedInterface), SetConfiguration]
  {
    var config := s.config;
    var afterFind := s.trace + [Find(config.vid, config.pid)];
    match found
    case None => (s.(trace := afterFind), Err(DeviceNotFound))
    case Some(device) =>
      var afterQuery := afterFind + [GetActiveConfiguration];
      match device.activeConfiguration
      case Raises => (s.(trace := afterQuery), Err(ConfigurationRaised))
      case Returns(configuration) =>
        if (config.interface, 0) !in configuration then
          (s.(trace := afterQuery), Err(InterfaceNotFound))
        else
          var eps := configuration[(config.interface, 0)];
          var inIndex := FirstIndex(eps, In);
          if inIndex.None? then
            (s.(trace := afterQuery), Err(EndpointNotFound(In)))
          else
            var outIndex := FirstIndex(eps, Out);
            if outIndex.None? then
              (s.(trace := afterQuery), Err(EndpointNotFound(Out)))
            else
              // Both best-effort steps are issued; what they answer is discarded.
              var trace := afterQuery + [DetachKernelDriver(DetachedInterface), SetConfiguration];
              (Stream(config, Open(eps[inIndex.value], eps[outIndex.value]), trace), Ok(()))
  }

  /** Whatever `detach_kernel_driver` and `set_configuration` answer, setup
      ends the same way. */
  lemma BestEffortStepsIgnored(s: Stream, device: Device, detach: Reply<()>, configure: Reply<()>)
    requires s.state.Unopened?
    ensures Setup(s, Some(device))
         == Setup(s, Some(device.(detachKernelDriver := detach, setConfiguration := configure)))
  {
  }

  /**
   `read`: one `epIn.read(read_size, read_timeout)`. An exception becomes
   `None`; anything the endpoint returns, an empty buffer included, is
   returned as it is.
   */
  function Read(s: Stream, reply: Reply<seq<byte>>): (out: (Stream, Option<seq<byte>>))
    requires s.state.Open?
    ensures out.0.config == s.config && out.0.state == s.state
    ensures out.0.trace == s.trace + [EndpointRead(s.state.epIn, s.config.readSize, s.config.readTimeout)]
    ensures out.1.None? <==> reply.Raises?
    ensures reply.Returns? ==> out.1 == Some(reply.value)
  {
    var trace := s.trace + [EndpointRead(s.state.epIn, s.config.readSize, s.config.readTimeout)];
    match reply
    case Raises => (s.(trace := trace), None)
    case Returns(data) => (s.(trace := trace), Some(data))
  }

  /** A read that succeeds with no bytes is an empty result, not `None`. */
  lemma EmptyReadIsNotNone(s: Stream)
    requires s.state.Open?
    ensures Read(s, Returns([])).1 == Some([])
  {
  }

  /** One `epOut.write` call per frame, in order. */
  function FrameWrites(ep: Endpoint, frames: seq<seq<byte>>): (calls: seq<Call>)
    ensures |calls| == |frames|
    ensures forall i :: 0 <= i < |frames| ==> calls[i] == EndpointWrite(ep, frames[i])
  {
    seq(|frames|, i requires 0 <= i < |frames| => EndpointWrite(ep, frames[i]))
  }

  /** Issuing one more frame adds one more write call at the end. */
  lemma FrameWritesExtend(ep: Endpoint, before: seq<Call>, frames: seq<seq<byte>>, j: nat)
    requires j < |frames|
    ensures before + FrameWrites(ep, frames[..j]) + [EndpointWrite(ep, frames[j])]
         == before + FrameWrites(ep, frames[..j + 1])
  {
    assert frames[..j + 1] == frames[..j] + [frames[j]];
  }

  /**
   `write`. The loop `for i in range(0, len(data), write_size)` sends the
   frames of `Framing.Chunk` to the OUT endpoint, one call each, in order.
   `failAt` is the index of the first frame whose write raises, if any: that
   frame has been issued, no later one is, and the exception escapes.
   A zero `write_size` makes `range` raise before any call; a negative one
   makes it empty, so nothing is sent and `write` returns normally.
   */
  method Write(s: Stream, data: seq<byte>, failAt: Option<nat>) returns (s': Stream, r: Result<(), WriteError>)
    requires s.state.Open?
    ensures s'.config == s.config && s'.state == s.state
    ensures s.config.writeSize == 0 ==> s' == s && r == Err(ZeroWriteSize)
    ensures s.config.writeSize < 0 ==> s' == s && r == Ok(())
    ensures s.config.writeSize > 0 && |data| == 0 ==> s' == s && r == Ok(())
    ensures s.config.writeSize > 0 ==>
      var frames := Framing.Chunk(data, s.config.writeSize);
      if failAt.Some? && failAt.value < |frames| then
        && r == Err(FrameWriteRaised(failAt.value))
        && s'.trace == s.trace + FrameWrites(s.state.epOut, frames[..failAt.value + 1])
      else
        && r == Ok(())
        && s'.trace == s.trace + FrameWrites(s.state.epOut, frames)
  {
    var k := s.config.writeSize;
    if k == 0 {
      return s, Err(ZeroWriteSize);
    }
    if k < 0 {
      return s, Ok(());
    }
    var trace;
    trace, r := SendFrames(s.state.epOut, s.trace, data, k, failAt);
    s' := s.(trace := trace);
    if |data| == 0 {
      assert s'.trace == s.trace + FrameWrites(s.state.epOut, []);
    }
  }

  /** The loop of `write` for a positive `write_size`, appending its calls
      to `before`. */
  method SendFrames(ep: Endpoint, before: seq<Call>, data: seq<byte>, k: nat, failAt: Option<nat>)
    returns (trace: seq<Call>, r: Result<(), WriteError>)
    requires k > 0
    ensures
      var frames := Framing.Chunk(data, k);
      if failAt.Some? && failAt.value < |frames| then
        && r == Err(FrameWriteRaised(failAt.value))
        && trace == before + FrameWrites(ep, frames[..failAt.value + 1])
      else
        && r == Ok(())
        && trace == before + FrameWrites(ep, frames)
  {
    ghost var frames := Framing.Chunk(data, k);
    trace := before;
    var i, j := 0, 0;
    while i < |data|
      invariant i == Framing.Offset(j, k)
      invariant j <= |frames|
      invariant failAt.Some? ==> j <= failAt.value
      invariant trace == before + FrameWrites(ep, frames[..j])
    {
      var slice := data[i .. Framing.Min(i + k, |data|)];
      var chunk := slice;
      if |chunk| < k {
        chunk := chunk + Framing.Zeros(k - |chunk|);
      }
      Framing.LoopBuildsFrame(data, k, j, slice, chunk);
      FrameWritesExtend(ep, before, frames, j);
      trace := trace + [EndpointWrite(ep, chunk)];
      if failAt == Some(j) {
        return trace, Err(FrameWriteRaised(j));
      }
      i, j := i + k, j + 1;
    }
    Framing.FrameStartBelowLength(data, k, j);
    assert frames[..j] == frames;
    return trace, Ok(());
  }
}
