/** Tunable thresholds of the ranking pipeline (src/config.py). */
module Config {
  /** Number of sections kept after the cross-document merge. */
  const TopSections: nat := 5
  /** Number of sub-section entries emitted per kept section. */
  const TopSubsections: nat := 5
  /** Shortest outline heading text that is kept. */
  const MinHeadingLength: nat := 5
  /** Chunks must be strictly shorter than this. */
  const MaxSubsectionLength: nat := 1000
}
