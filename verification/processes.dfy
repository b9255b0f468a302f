/** The per-process sample the monitor collects (the Go record `ProcessInfo`). */
module Processes {

  /** Go's `int32`, the width of a process identifier. */
  newtype Int32 = x: int | -0x8000_0000 <= x < 0x8000_0000

  /** Go's `uint64`, the width of a resident-set size in bytes. */
  newtype Uint64 = x: int | 0 <= x < 0x1_0000_0000_0000_0000

  /**
   * One process as read from the operating system: its identifier, its
   * display name (empty when the name could not be read), its CPU share in
   * percent and its resident set size in bytes. The CPU share is a `real`:
   * the ranker only ever compares it.
   */
  datatype ProcessInfo = ProcessInfo(pid: Int32, name: string, cpu: real, memory: Uint64)
}
