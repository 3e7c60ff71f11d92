/** The little-endian Binder command stream: words, lengths, frames and packets. */
module BinderWire {
  import opened Base

  const BR_TRANSACTION: nat := 0x8040_7202
  const BR_REPLY: nat := 0x8040_7203
  const BR_DEAD_REPLY: nat := 0x0000_7205
  const BR_TRANSACTION_COMPLETE: nat := 0x0000_7206
  const BR_INCREFS: nat := 0x8010_7207
  const BR_ACQUIRE: nat := 0x8010_7208
  const BR_RELEASE: nat := 0x8010_7209
  const BR_DECREFS: nat := 0x8010_720a
  const BR_NOOP: nat := 0x0000_720c
  const BR_DEAD_BINDER: nat := 0x8008_720f
  const BR_CLEAR_DEATH_NOTIFICATION_DONE: nat := 0x8008_7210
  const BR_FAILED_REPLY: nat := 0x0000_7211

  /** What a queued parcel is delivered as. */
  type ParcelWord = w: nat | w == BR_TRANSACTION || w == BR_REPLY witness BR_TRANSACTION

  /** The fields of a transaction that travel in a 64-byte frame. */
  datatype Packet = Packet(target: u64, cookie: u64, code: u32, flags: u32, senderPid: u32, senderEuid: u32,
                           dataSize: u64, offsetsSize: u64, dataBuffer: u64, offsetsBuffer: u64)
}
