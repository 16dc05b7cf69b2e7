/** The observability tables are split by ID. */
module Sharding {

  const SHARD_COUNT: nat := 10
}
