/** Metadata-first reconciliation: which state a metadata row gets. */
module Reconciliation {
  import opened Wrappers
  import opened Text

  datatype State =
    | DiscoveredInMetadata | XmlPending | XmlRequested | XmlDownloaded | XmlNotAvailable
    | CancelledMetadata | CancelledConfirmed | StateCheckPending | StateChecked | RetryScheduled | FailedPermanent

  const CANCELLED_STATUSES := {"cancelado", "cancelada", "cancelled", "canceled"}
  const TRANSIENT_STATUSES := {"en_proceso", "en proceso", "processing", "pending"}

  datatype Decision = Decision(state: State, reason: string, shouldDownloadXml: bool, shouldCheckStatus: bool)

  function Folded(status: string): string {
    Lower(Strip(status))
  }

  function Decide(status: string, hasXml: bool, isNew: bool, previous: Option<string>): Decision {
    var current := Folded(status);
    var before := if previous.Some? then Folded(previous.value) else "";
    var changed := before != "" && before != current;
    if hasXml then
      Decision(XmlDownloaded, "xml evidence already exists", false, changed || current in CANCELLED_STATUSES)
    else if current in CANCELLED_STATUSES then
      Decision(CancelledMetadata, "metadata reports cancellation", false, true)
    else if current in TRANSIENT_STATUSES || changed then
      Decision(StateCheckPending, "metadata status needs confirmation", false, true)
    else if isNew then
      Decision(DiscoveredInMetadata, "new UUID discovered in metadata", true, false)
    else
      Decision(XmlPending, "metadata exists without XML evidence", true, false)
  }

  /** What a metadata status says about a row that had `previous` before. */
  predicate Cancelled(status: string) {
    Folded(status) in CANCELLED_STATUSES
  }

  /** The status has moved since the row was last seen, or is one that will move. */
  predicate Unsettled(status: string, previous: Option<string>) {
    Folded(status) in TRANSIENT_STATUSES || Changed(status, previous)
  }

  predicate Changed(status: string, previous: Option<string>) {
    previous.Some? && Folded(previous.value) != "" && Folded(previous.value) != Folded(status)
  }

  /** Evidence decides before cancellation, cancellation before doubt, doubt before novelty; the state says
      which. XML is asked for exactly without evidence, cancellation and doubt, a status check exactly for
      the cancelled, the doubtful, and for evidence whose status has changed. */
  lemma DecideFollowsEvidence(status: string, hasXml: bool, isNew: bool, previous: Option<string>)
    ensures var d := Decide(status, hasXml, isNew, previous);
            && (d.state == XmlDownloaded <==> hasXml)
            && (d.state == CancelledMetadata <==> !hasXml && Cancelled(status))
            && (d.state == StateCheckPending <==> !hasXml && !Cancelled(status) && Unsettled(status, previous))
            && (d.state == DiscoveredInMetadata <==>
                  !hasXml && !Cancelled(status) && !Unsettled(status, previous) && isNew)
            && (d.state == XmlPending <==>
                  !hasXml && !Cancelled(status) && !Unsettled(status, previous) && !isNew)
            && (d.shouldDownloadXml <==> d.state == DiscoveredInMetadata || d.state == XmlPending)
            && (d.shouldCheckStatus <==>
                  d.state == CancelledMetadata || d.state == StateCheckPending
                  || (hasXml && (Cancelled(status) || Changed(status, previous))))
            && !(d.shouldDownloadXml && d.shouldCheckStatus)
  {
  }
}
