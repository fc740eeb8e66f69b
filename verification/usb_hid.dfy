/**
 The USB HID stream adapter (mqtt_io/modules/stream/usb_hid.py): one HID
 device handle serves as both the read and the write channel. `setup` opens
 it by vendor and product id and then puts it in non-blocking mode, `read`
 asks for one report of `read_size` bytes, `write` hands the data to the
 device as it is, and `cleanup` closes the handle.

 As in the bulk adapter, each operation takes the stream and the device's
 answer and returns the next stream with the result; the device calls the
 contracts track are appended to `trace` (`hid.device()` and the three
 string queries are not recorded). No exception is caught in this adapter,
 so a call that raises ends the operation with an error naming that call.
 */
module UsbHid {
  import opened Transport

  /** The configuration keys the adapter reads: `vid`, `pid` and `read_size`. */
  datatype Config = Config(vid: int, pid: int, readSize: int)

  /** The calls the adapter makes on the `hid.device` handle. */
  datatype Call =
    | OpenDevice(vid: int, pid: int)
    | SetNonblocking(enabled: int)
    | ReadReport(maxLength: int)
    | WriteReport(data: seq<byte>)
    | CloseDevice

  datatype State = Unopened | Open | Closed

  datatype Stream = Stream(config: Config, state: State, trace: seq<Call>)

  /**
   `setup_module`: `open(vid, pid)` and, only once that has returned,
   `set_nonblocking(1)`. If `open` raises, non-blocking mode is never
   requested. The adapter is open only when both calls returned.
   */
  function Setup(s: Stream, openReply: Reply<()>, nonblockingReply: Reply<()>): (out: (Stream, Result<(), Call>))
    requires s.state.Unopened?
    ensures out.0.config == s.config
    ensures out.1.Ok? <==> openReply.Returns? && nonblockingReply.Returns?
    ensures out.0.state.Open? <==> out.1.Ok?
    ensures out.1.Err? ==> out.0.state == s.state
    ensures openReply.Raises? ==>
      && out.1 == Err(OpenDevice(s.config.vid, s.config.pid))
      && out.0.trace == s.trace + [OpenDevice(s.config.vid, s.config.pid)]
    ensures openReply.Returns? ==>
      out.0.trace == s.trace + [OpenDevice(s.config.vid, s.config.pid), SetNonblocking(1)]
    ensures openReply.Returns? && nonblockingReply.Raises? ==> out.1 == Err(SetNonblocking(1))
  {
    var afterOpen := s.trace + [OpenDevice(s.config.vid, s.config.pid)];
    match openReply
    case Raises => (s.(trace := afterOpen), Err(OpenDevice(s.config.vid, s.config.pid)))
    case Returns(_) =>
      var configured := afterOpen + [SetNonblocking(1)];
      match nonblockingReply
      case Raises => (s.(trace := configured), Err(SetNonblocking(1)))
      case Returns(_) => (Stream(s.config, Open, configured), Ok(()))
  }

  /** Whatever the device answers, setup never asks for non-blocking mode
      before it has asked to open the device with the configured ids. In the
      modelled trace the open call comes right before; the program makes the
      three string queries in between, which the trace does not record. */
  lemma {:induction false} OpenPrecedesNonblocking(s: Stream, openReply: Reply<()>, nonblockingReply: Reply<()>, i: nat)
    requires s.state.Unopened?
    requires |s.trace| <= i < |Setup(s, openReply, nonblockingReply).0.trace|
    requires Setup(s, openReply, nonblockingReply).0.trace[i].SetNonblocking?
    ensures i > |s.trace|
    ensures Setup(s, openReply, nonblockingReply).0.trace[i - 1] == OpenDevice(s.config.vid, s.config.pid)
  {
    var t := Setup(s, openReply, nonblockingReply).0.trace;
    if openReply.Raises? {
      assert false;
    } else {
      assert t[|s.trace|] == OpenDevice(s.config.vid, s.config.pid);
    }
  }

  /**
   `read`: one `read(read_size)` call. An empty answer becomes `None`; any
   other answer is returned as it is, an all-zero report included, because
   `bytes(data) or None` tests only for emptiness. An exception from the
   device is not caught.
   */
  function Read(s: Stream, reply: Reply<seq<byte>>): (out: (Stream, Result<Option<seq<byte>>, Call>))
    requires s.state.Open?
    ensures out.0.config == s.config && out.0.state == s.state
    ensures out.0.trace == s.trace + [ReadReport(s.config.readSize)]
    ensures out.1.Err? <==> reply.Raises?
    ensures reply.Returns? ==> (out.1 == Ok(None) <==> |reply.value| == 0)
    ensures reply.Returns? && |reply.value| > 0 ==> out.1 == Ok(Some(reply.value))
  {
    var trace := s.trace + [ReadReport(s.config.readSize)];
    match reply
    case Raises => (s.(trace := trace), Err(ReadReport(s.config.readSize)))
    case Returns(data) => (s.(trace := trace), Ok(if data == [] then None else Some(data)))
  }

  /** Eight zero bytes are a report like any other: they come back as bytes. */
  lemma ZeroReportIsData(s: Stream)
    requires s.state.Open?
    ensures Read(s, Returns([0, 0, 0, 0, 0, 0, 0, 0])).1 == Ok(Some([0, 0, 0, 0, 0, 0, 0, 0]))
  {
  }

  /**
   `write`: one device `write` with the data unchanged, whatever its length.
   There is no framing and no padding here, unlike the bulk adapter.
   */
  function Write(s: Stream, data: seq<byte>, reply: Reply<()>): (out: (Stream, Result<(), Call>))
    requires s.state.Open?
    ensures out.0.config == s.config && out.0.state == s.state
    ensures out.0.trace == s.trace + [WriteReport(data)]
    ensures out.1.Ok? <==> reply.Returns?
  {
    var trace := s.trace + [WriteReport(data)];
    match reply
    case Raises => (s.(trace := trace), Err(WriteReport(data)))
    case Returns(_) => (s.(trace := trace), Ok(()))
  }

  /** The bytes carried by the write calls of a trace, in order. */
  function Written(calls: seq<Call>): seq<byte>
  {
    if |calls| == 0 then []
    else (if calls[0].WriteReport? then calls[0].data else []) + Written(calls[1..])
  }

  lemma WrittenAppend(calls: seq<Call>, more: seq<Call>)
    ensures Written(calls + more) == Written(calls) + Written(more)
    decreases |calls|
  {
    if |calls| == 0 {
      assert calls + more == more;
    } else {
      assert (calls + more)[1..] == calls[1..] + more;
      WrittenAppend(calls[1..], more);
    }
  }

  /** The bytes handed to the device across any number of writes are exactly
      the bytes written, in order: nothing is split, padded or dropped. */
  lemma WriteDeliversData(s: Stream, data: seq<byte>, reply: Reply<()>)
    requires s.state.Open?
    ensures Written(Write(s, data, reply).0.trace) == Written(s.trace) + data
  {
    WrittenAppend(s.trace, [WriteReport(data)]);
    assert Written([WriteReport(data)]) == data + Written([]);
  }

  /** `cleanup`: exactly one `close` on the handle and no other call. */
  function Cleanup(s: Stream, reply: Reply<()>): (out: (Stream, Result<(), Call>))
    requires s.state.Open?
    ensures out.0.config == s.config
    ensures out.0.trace == s.trace + [CloseDevice]
    ensures out.1.Ok? <==> reply.Returns?
    ensures out.0.state.Closed? <==> out.1.Ok?
  {
    var trace := s.trace + [CloseDevice];
    match reply
    case Raises => (s.(trace := trace), Err(CloseDevice))
    case Returns(_) => (Stream(s.config, Closed, trace), Ok(()))
  }

  /** The whole life of a handle whose every call returns: setup opens it,
      cleanup closes it, and the device sees open, non-blocking mode and
      close, in that order and nothing else. */
  lemma SetupThenCleanup(s: Stream)
    requires s.state.Unopened?
    ensures Setup(s, Returns(()), Returns(())).1 == Ok(())
    ensures Setup(s, Returns(()), Returns(())).0.state.Open?
    ensures Cleanup(Setup(s, Returns(()), Returns(())).0, Returns(()))
         == (Stream(s.config, Closed, s.trace + [OpenDevice(s.config.vid, s.config.pid), SetNonblocking(1), CloseDevice]), Ok(()))
  {
    var o := OpenDevice(s.config.vid, s.config.pid);
    assert s.trace + [o] + [SetNonblocking(1)] + [CloseDevice] == s.trace + [o, SetNonblocking(1), CloseDevice];
  }
}
