// The life of a quote and what the upload services ask about it (src/intake/domain/quotes.py).
module QuoteStates {
  import opened Prelude

  datatype QuoteStatus = Draft | Submitted | NeedsReview | Reviewing | Quoted | Accepted | Declined | Closed

  /** The owner, if one is stored, and the status of a quote. */
  datatype QuoteRow = QuoteRow(accountId: Option<string>, status: QuoteStatus)

  /** What the repositories and the settings say when a request comes in: quotes, verified flags of accounts, and
      whether uploads require a verified email. */
  datatype Lookup = Lookup(quotes: map<string, QuoteRow>, accounts: map<string, bool>, requireVerified: bool)

  predicate UploadsAllowed(status: QuoteStatus) {
    status == Draft || status == Submitted || status == NeedsReview || status == Reviewing
  }
}
