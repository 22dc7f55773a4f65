/**
  What the media components share: the value that stands for an unknown time
  (interface/mmal/mmal_types.h:88), a value that may be missing, and the time that audio samples take.
 */
module Mmal {
  const TIME_UNKNOWN: int := -0x8000_0000_0000_0000

  datatype Option<T> = None | Some(value: T)

  const SECOND := 1_000_000 // microseconds

  /** A number of samples as a time in microseconds. */
  function Micros(samples: nat, rate: nat): nat
    requires rate > 0
  {
    samples * SECOND / rate
  }
}
