/** What every subscription of the relay shares (src/relay.rs). */
module Relay {
  /** What a full queue does with an arriving message. */
  datatype Policy = DropNewest | DropOldest | Block
}
