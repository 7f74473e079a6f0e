/** The settings the retrieval pipeline reads (their defaults in the application settings). */
module Config {
  /** Characters per fixed-size chunk, and target size of a semantic chunk. */
  const DefaultChunkSize: int := 500
  /** Characters shared by consecutive fixed-size chunks. */
  const DefaultChunkOverlap: int := 50
  /** Number of passages retrieved per chat turn. */
  const TopKRetrieval: int := 5
  /** Longest context section, in characters, before it is cut and marked with "...". */
  const MaxContextLength: int := 2000
}
