/**
 The vocabulary both stream adapters share: bytes, optional values, the
 answer a device gives to one call, and the success-or-error value an
 adapter operation returns.

 The USB and HID libraries are not modelled; every call into them is
 replaced by a `Reply` that the caller of the model chooses, so each
 contract holds whatever the device answers.
 */
module Transport {

  /** One octet, as carried by Python `bytes` and by a USB frame. */
  type byte = bv8

  /** Python's `Optional[...]`: `None` or a value. */
  datatype Option<+T> = None | Some(value: T)

  /** What one call into the device library did: it returned a value or it raised. */
  datatype Reply<+T> = Returns(value: T) | Raises

  /** The outcome of an adapter operation: it completed, or an exception left it. */
  datatype Result<+T, +E> = Ok(value: T) | Err(error: E)
}
