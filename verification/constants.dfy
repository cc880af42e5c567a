/** Default values of the gateway's settings. */
module Constants {
  /** Seconds between two polling passes. */
  const DefaultPollInterval: int := 120

  /** Seconds after the event is produced at which it goes stale. */
  const DefaultCotStale: int := 600

  /** The Cursor-on-Target type given to events when a feed sets none. */
  const DefaultCotType: string := "a-.-G-E-V-C"
}
