/** The SQLite result codes the models branch on. */
module Codes {
  const OK := 0
  const LOCKED := 6
  const TOOBIG := 18
  const RANGE := 25
  const ROW := 100
  const DONE := 101
  const LOCKED_SHAREDCACHE := 262
}
