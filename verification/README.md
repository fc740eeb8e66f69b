# USB byte-stream adapters, modelled in Dafny

mqtt-io gives its message router one byte-stream interface (`setup`, `read`,
`write`, `cleanup`) over two kinds of hardware: a raw USB device with bulk
endpoints (`mqtt_io/modules/stream/usb.py`) and a USB HID device
(`mqtt_io/modules/stream/usb_hid.py`). This project models both adapters and
the framing policy of the bulk `write`, and proves what each operation does.

- `transport.dfy` (module `Transport`): bytes, `Option`, the `Reply` a device
  gives to one call (it returns a value or it raises), and `Result`.
- `framing.dfy` (module `Framing`): `Chunk(data, k)`, the frames the bulk
  `write` sends, with the padding count, the frame count, the per-frame
  slice and the round trip.
- `usb.dfy` (module `Usb`): the bulk adapter. `Setup`, `Read` and the
  `Write` method, whose loop follows the Python loop offset by offset.
- `usb_hid.dfy` (module `UsbHid`): the HID adapter. `Setup`, `Read`,
  `Write` and `Cleanup`.
- `adapters.dfy` (module `Adapters`): the two `read` methods compared on
  every device answer.

Each adapter is a record `Stream(config, state, trace)`. `state` follows
`Unopened -> Open -> Closed`. `trace` records the calls whose order and
arguments the contracts state: the device lookup, the configuration query,
the two best-effort calls, and the reads, writes, opens and closes. It
does not record `find_descriptor`, the `cfg[...]` lookup, `hid.device()` or
the HID string queries. The libraries themselves (pyusb, hidapi) are
not modelled. Each of their answers is a parameter of the operation: the
device `usb.core.find` returns, if any, with its answers to the setup calls;
the `Reply` of each read, write, open or close; and, for the bulk write,
the index of the first frame whose transfer raises. The contracts hold for
every such answer. `read`, `write` and `cleanup` require the `Open` state,
and `setup` requires `Unopened`. This is the caller's obligation: the
message router sets a stream up before it uses it. The Python methods do
not enforce it; what they do when it is broken is listed, operation by
operation, under "Left out".

Three behaviours of the code a reader might not expect, all modelled as
written:
- The bulk `read` returns an empty byte string when the endpoint returns no
  bytes. It returns `None` only when the endpoint read raises.
- The HID `write` does not cut or pad anything. It forwards the data in one
  device call, and `write_size` is not among its configuration keys.
- The HID `read` lets device exceptions escape, where the bulk `read`
  catches them.

## Model

| member | source | states |
|---|---|---|
| Framing.PadCount | mqtt_io/modules/stream/usb.py:86-88 | the zero bytes added to the last frame are fewer than `write_size`, and there are none for empty data |
| Framing.Chunk | mqtt_io/modules/stream/usb.py:85-89 | every frame is exactly `write_size` bytes long, and the frames end exactly where the data plus its padding ends |
| Framing.ChunkRoundTrip | mqtt_io/modules/stream/usb.py:85-89 | the frames joined are the data followed by exactly the padding zeros, so dropping the padding gives back the data |
| Framing.FrameStartBelowLength | mqtt_io/modules/stream/usb.py:85 | `range(0, n, k)` yields the offset of frame j exactly when there is a frame j, so each frame gets one transport call, empty data gets none, and there is no extra call |
| Framing.ChunkFrame | mqtt_io/modules/stream/usb.py:85-88 | frame j is the slice data[i : i + k] at its offset i, with zeros added when it is short |
| Framing.ExactMultipleNoPadding | mqtt_io/modules/stream/usb.py:87-88 | data that fills m frames exactly gets no padding and no extra frame: m frames that join to the data itself |
| Framing.OffsetIsProduct | mqtt_io/modules/stream/usb.py:85 | the offset of frame j is j * k |
| Framing.ChunkCount | mqtt_io/modules/stream/usb.py:85-88 | there are ceil(n / k) frames, and the padding is (k - n mod k) mod k |
| Framing.FiveBytesInFramesOfFour | mqtt_io/modules/stream/usb.py:81-89 | five bytes in frames of four are sent as [1,2,3,4] then [5,0,0,0] |
| Usb.DirectionOf | mqtt_io/modules/stream/usb.py:47-55 | the bit-7 test of `endpoint_direction` makes an endpoint IN exactly when its address is at least 0x80, OUT exactly when it is below |
| Usb.FirstIndex | mqtt_io/modules/stream/usb.py:44-57 | the endpoint search finds nothing exactly when no endpoint has the direction, and otherwise the first endpoint in descriptor order that has it |
| Usb.Setup | mqtt_io/modules/stream/usb.py:28-67 | setup succeeds exactly when the device, its configuration, the interface and an IN and an OUT endpoint exist; without a device it raises after the lookup alone, and every other failure raises its own error after the configuration query, a missing IN endpoint before a missing OUT one; the endpoints kept are the first IN and first OUT; the two best-effort calls come last and only on success |
| Usb.BestEffortStepsIgnored | mqtt_io/modules/stream/usb.py:59-67 | failures of `detach_kernel_driver` and `set_configuration` do not change how setup ends |
| Usb.Read | mqtt_io/modules/stream/usb.py:72-79 | one endpoint read with `read_size` and `read_timeout`; `None` exactly when it raises, otherwise the bytes returned |
| Usb.EmptyReadIsNotNone | mqtt_io/modules/stream/usb.py:73-79 | a successful empty read yields an empty byte string, not `None` |
| Usb.Write | mqtt_io/modules/stream/usb.py:81-89 | the OUT endpoint receives the frames of `Chunk` in order; if frame j raises, frames 0..j were issued, none later, and the error escapes; a zero `write_size` raises before any call; a negative one sends nothing, and empty data sends nothing |
| Usb.SendFrames | mqtt_io/modules/stream/usb.py:85-89 | the `for` loop over `range(0, n, k)` for k > 0, slice by slice, issues exactly the frames of `Chunk` in order; if frame j raises, it stops after frame j with that error |
| UsbHid.Setup | mqtt_io/modules/stream/usb_hid.py:25-36 | open with the configured ids comes first and non-blocking mode is requested only after it returned; the adapter is open exactly when both calls returned |
| UsbHid.OpenPrecedesNonblocking | mqtt_io/modules/stream/usb_hid.py:32-36 | in the trace of any setup, a request for non-blocking mode is preceded by the open call with the configured ids; the string queries between them are not recorded |
| UsbHid.Read | mqtt_io/modules/stream/usb_hid.py:38-40 | one read of `read_size` bytes; `None` exactly when the device returns nothing, the bytes themselves otherwise, and a device exception escapes |
| UsbHid.ZeroReportIsData | mqtt_io/modules/stream/usb_hid.py:40 | a report of eight zero bytes is returned as data, not as `None` |
| UsbHid.Write | mqtt_io/modules/stream/usb_hid.py:42-43 | exactly one device write carrying the data unchanged |
| UsbHid.WriteDeliversData | mqtt_io/modules/stream/usb_hid.py:42-43 | the bytes the device has been handed grow by exactly the written data, with no splitting or padding |
| UsbHid.Cleanup | mqtt_io/modules/stream/usb_hid.py:45-46 | exactly one `close` call and no other device call; the adapter is closed when it returned |
| UsbHid.SetupThenCleanup | mqtt_io/modules/stream/usb_hid.py:25-46 | a handle whose every call returns is open after setup and closed after cleanup, and the device sees exactly open, non-blocking mode and close, in that order |
| Adapters.ReadNormalisations | mqtt_io/modules/stream/usb_hid.py:38-40 | for every device answer: a non-empty one gives the same bytes from both `read`s; an empty one gives `b""` from the bulk read (usb.py:72-79) and `None` from the HID read; a raise gives `None` from the bulk read and an escaping exception from the HID read |

## Left out

- The bulk `cleanup` (usb.py lines 91-94). It uses the name `usb`, which
  `setup_module` imports only as a local variable, so as written it raises
  `NameError` before releasing anything. The bulk `Closed` state is
  therefore not modelled.
- pyusb and hidapi: `usb.core.find`, descriptor enumeration, `hid.device()`
  and the transfers. They are replaced by device answers passed as
  parameters. The descriptor lookup `cfg[(interface, 0)]` is modelled as a
  lookup in a map keyed by the pair `cfg[...]` is indexed with, and its
  failure as `InterfaceNotFound`.
- The `print` diagnostics and the manufacturer, product and serial string
  queries (usb_hid.py lines 33-35), which only log. Should one of them
  raise, setup would stop before non-blocking mode; the model does not
  include that path.
- Timeouts and non-blocking mode as behaviour. `read_timeout` and the
  non-blocking flag are only arguments recorded in the trace.
- `CONFIG_SCHEMA` validation and defaults (`read_timeout` defaults to 1).
  The model takes the configuration after the loader has filled it in.
- The interface number given to `detach_kernel_driver` is the constant 1,
  not the configured interface. The model records exactly that call and
  ignores its answer.
- `assert self.epIn is not None` and `assert self.epOut is not None` are
  modelled as raising. With Python's `-O` flag they vanish, and setup would
  complete with a missing endpoint; that mode is not modelled.
- A setup that raises part-way leaves attributes such as `self.dev` or an
  open HID handle behind. The model keeps the adapter `Unopened` and does
  not model those leftovers.
- Usb.Read: a read outside the `Open` state is not modelled. Before setup,
  or after a setup that raised before finding the IN endpoint, reading
  `self.epIn` raises inside the `try`, so the Python `read` returns `None`.
  After a setup that found the IN endpoint and then raised at the OUT
  check, it really reads the device.
- Usb.Write: a write outside the `Open` state is not modelled. The Python
  `write` touches `self.epOut` only inside the loop. With empty data or a
  negative `write_size` it returns normally before setup, and with a zero
  `write_size` it raises from `range`.
- UsbHid.Read, UsbHid.Write and UsbHid.Cleanup: a call outside the `Open`
  state is not modelled. Before setup, `self.device` does not exist yet
  (usb_hid.py line 30 creates it), so each of them raises `AttributeError`.
  After a setup that raised at a string query or at `set_nonblocking`
  (usb_hid.py lines 33-36), the handle is open although the model keeps the
  stream `Unopened`. There, `read` and `write` reach the device and
  `cleanup` really closes it.
- Usb.Setup and UsbHid.Setup: a second setup on a stream that is already
  open is not modelled. The Python runs it again: it looks up the device
  again, or it creates and opens a second HID handle.
- The `GenericStream` base class, the dynamic module import and the loop
  that calls these operations are not part of this model.
