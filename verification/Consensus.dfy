/** Limits that every part of the program shares. */
module Consensus {

  const MAX_BLOCK_WEIGHT: nat := 32000000
  const WITNESS_SCALE_FACTOR: nat := 32
  const MIN_TRANSACTION_WEIGHT: nat := WITNESS_SCALE_FACTOR * 60
  const MIN_SERIALIZABLE_TRANSACTION_WEIGHT: nat := WITNESS_SCALE_FACTOR * 10
}
