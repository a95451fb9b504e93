/** The configuration constants the core uses (ai_tutor_bot/utils/config.py). */
module Config {

  /** Target chunk size, in words. */
  const ChunkSize: int := 768

  /** Overlap budget carried into the next chunk, in words. */
  const ChunkOverlap: int := 100

  /** The spaced-repetition ladder, in days. */
  const RepetitionIntervals: seq<nat> := [1, 3, 7, 14, 30]
}
