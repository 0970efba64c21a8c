/** What the Redis scripts answer. */
module Limiter {
  datatype Algorithm = SlidingWindowLog | LeakyBucketMeter

  datatype Reply = Reply(allowed: bool, remaining: int, resetMs: int)

  // The store refuses a command on a key that holds the other kind of value.
  datatype ScriptError = WrongType
}
