/** The extension's persistent local storage: the configured source list
    and the short history of recent transfers. Both the popup and the
    background worker read and rewrite these two entries. */
module Storage {

  /** A configured production origin; `added` is the time it was added. */
  datatype SourceEntry = SourceEntry(url: string, enabled: bool, added: int)

  /** What started a transfer. */
  datatype Trigger = Auto | Manual

  /** One entry of the recent-transfer history. */
  datatype TransferRecord = TransferRecord(sourceCount: nat, totalCookies: nat, skippedCookies: nat, timestamp: int, kind: Trigger)

  /** The `sourceUrls` and `recentTransfers` entries of the local storage. */
  class LocalStore {
    var sourceUrls: seq<SourceEntry>
    var recentTransfers: seq<TransferRecord>

    constructor (sources: seq<SourceEntry>, recent: seq<TransferRecord>)
      ensures sourceUrls == sources && recentTransfers == recent
    {
      sourceUrls := sources;
      recentTransfers := recent;
    }
  }
}
