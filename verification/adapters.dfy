/**
 The two adapters side by side. Both `read` methods poll the device once,
 but they turn its answer into a result differently: the bulk adapter
 (mqtt_io/modules/stream/usb.py) catches an exception and returns `None`,
 and passes an empty buffer on as an empty byte string; the HID adapter
 (mqtt_io/modules/stream/usb_hid.py) lets an exception escape, and turns
 an empty report into `None` with `bytes(data) or None`.
 */
module Adapters {
  import opened Transport
  import Usb
  import UsbHid

  /** For every answer of the device, how the two `read` results relate:
      equal for a non-empty answer; `b""` against `None` for an empty one;
      `None` against an escaping exception when the device raises. */
  lemma ReadNormalisations(u: Usb.Stream, h: UsbHid.Stream, reply: Reply<seq<byte>>)
    requires u.state.Open? && h.state.Open?
    ensures reply.Returns? && |reply.value| > 0 ==> UsbHid.Read(h, reply).1 == Ok(Usb.Read(u, reply).1)
    ensures reply == Returns([]) ==> Usb.Read(u, reply).1 == Some([]) && UsbHid.Read(h, reply).1 == Ok(None)
    ensures Usb.Read(u, reply).1.None? <==> UsbHid.Read(h, reply).1.Err?
    ensures UsbHid.Read(h, reply).1 == Ok(None) <==> Usb.Read(u, reply).1 == Some([])
  {
  }
}
