/** The three gates of the ingestion protocol (decision.go). */
module Decision {

  predicate ShouldSkipProcessed(processed: bool) {
    processed
  }

  predicate ShouldProcessAttempt(attemptCount: int, maxRetries: int) {
    attemptCount < maxRetries
  }

  // The empty string stands for "no history yet".
  predicate ShouldInsertHistory(latestHash: string, currentHash: string) {
    latestHash == "" || latestHash != currentHash
  }
}
