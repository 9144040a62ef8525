/** Points in time. */
module Time {

  /** Instants are counted in an arbitrary fixed unit. */
  type Instant = int
}
