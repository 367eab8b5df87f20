/** The size of a ring buffer, and the code of a slot nothing was written to. */
module IpcSlots {
  const SLOTS := 256
  const NIL := 0
}
