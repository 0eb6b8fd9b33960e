/** The tuning constants of the configuration. */
module Constants {
  const BATCH_SIZE_DATABASE: nat := 1_000
  const BATCH_SIZE_CACHE: nat := 10_000
  const CENTROID_SIZE: nat := 10_000

  const SAMPLE_SIZE: nat := 50_000
  const SPLIT_SIZE: nat := 5
  const SUPERSET_MUL: nat := 5
  const KMEANS_ITERATION_LIMIT: nat := 1_000

  /** Five seconds, in nanoseconds. */
  const CACHE_DURATION: int := 5_000_000_000

  const HTTP_CLIENT_MAX_REQUESTS: nat := 500
}
