/** Download queries, their canonical form and the payload that carries them through the queue. */
module Domain {
  import opened Wrappers
  import opened Clock
  import opened Text
  import opened Sorting

  datatype Direction = Issued | Received | Folio

  datatype RequestType = Metadata | Cfdi

  /** A `datetime` by what `isoformat()` prints of it: the wall clock, and the offset from UTC unless the
      stamp is naive. */
  datatype Stamp = Stamp(wall: int, offset: Option<int>)
  {
    function At(): Instant {
      wall - if offset.Some? then offset.value else 0
    }

    /** `date()`. */
    function Day(): int {
      wall / DAY
    }
  }

  datatype Period = Period(start: Stamp, end: Stamp)

  datatype DownloadQuery = DownloadQuery(
    tenantId: string,
    requesterRfc: string,
    direction: Direction,
    requestType: RequestType,
    period: Option<Period>,
    issuerRfc: Option<string>,
    receiverRfcs: seq<string>,
    uuid: Option<string>,
    documentStatus: Option<string>,
    documentType: Option<string>,
    complement: Option<string>,
    rfcOnBehalf: Option<string>,
    recoveryVariantReason: Option<string>)

  /** What the criteria hash digests. */
  datatype Canonical = Canonical(
    tenantId: string,
    requesterRfc: string,
    direction: Direction,
    requestType: RequestType,
    period: Option<Period>,
    issuerRfc: Option<string>,
    receiverRfcs: seq<string>,
    uuid: Option<string>,
    documentStatus: Option<string>,
    documentType: Option<string>,
    complement: Option<string>,
    rfcOnBehalf: Option<string>,
    recoveryVariantReason: Option<string>)

  /** `x.upper() if x else None`. */
  function UpperIfAny(value: Option<string>): Option<string> {
    if value.None? || value.value == "" then None else Some(Upper(value.value))
  }

  function Uppers(values: seq<string>): (r: seq<string>)
    ensures |r| == |values|
  {
    seq(|values|, i requires 0 <= i < |values| => Upper(values[i]))
  }

  function CanonicalOf(q: DownloadQuery): Canonical {
    Canonical(
      q.tenantId, Upper(q.requesterRfc), q.direction, q.requestType, q.period, UpperIfAny(q.issuerRfc),
      SortBy(LexLe, Uppers(q.receiverRfcs)), UpperIfAny(q.uuid), q.documentStatus, q.documentType, q.complement,
      UpperIfAny(q.rfcOnBehalf), q.recoveryVariantReason)
  }

  /** SHA-256 over the canonical JSON, taken as a function of the canonical fields. */
  type Digest = Canonical -> string

  ghost predicate Injective(digest: Digest) {
    forall a, b :: digest(a) == digest(b) ==> a == b
  }

  function CriteriaHash(digest: Digest, q: DownloadQuery): string {
    digest(CanonicalOf(q))
  }

  lemma LexLeIsOrder()
    ensures TotalPreorder(LexLe)
  {
    forall x, y ensures LexLe(x, y) || LexLe(y, x) {
      LexLeTotal(x, y);
    }
    forall x, y, z | LexLe(x, y) && LexLe(y, z) ensures LexLe(x, z) {
      LexLeTransitive(x, y, z);
    }
  }

  /** Sorting a list of texts forgets its order and nothing else. */
  lemma SortForgetsOrder(a: seq<string>, b: seq<string>)
    ensures SortBy(LexLe, a) == SortBy(LexLe, b) <==> multiset(a) == multiset(b)
  {
    LexLeIsOrder();
    SortBySorted(LexLe, a);
    SortBySorted(LexLe, b);
    hide LexLe, SortBy;
    if multiset(a) == multiset(b) {
      forall x, y | LexLe(x, y) && LexLe(y, x) ensures x == y {
        LexLeAntisymmetric(x, y);
      }
      SortedUnique(LexLe, SortBy(LexLe, a), SortBy(LexLe, b));
    }
  }

  /** Same meaning: letter case of RFCs and UUID and the order of receivers do not matter, how often a
      receiver is named does, and an empty RFC or UUID counts as none. */
  ghost predicate SameCriteria(p: DownloadQuery, q: DownloadQuery) {
    && p.tenantId == q.tenantId && Upper(p.requesterRfc) == Upper(q.requesterRfc)
    && p.direction == q.direction && p.requestType == q.requestType && p.period == q.period
    && UpperIfAny(p.issuerRfc) == UpperIfAny(q.issuerRfc)
    && multiset(Uppers(p.receiverRfcs)) == multiset(Uppers(q.receiverRfcs))
    && UpperIfAny(p.uuid) == UpperIfAny(q.uuid)
    && p.documentStatus == q.documentStatus && p.documentType == q.documentType && p.complement == q.complement
    && UpperIfAny(p.rfcOnBehalf) == UpperIfAny(q.rfcOnBehalf)
    && p.recoveryVariantReason == q.recoveryVariantReason
  }

  /** Two queries share a criteria hash exactly when they have the same meaning. */
  lemma SameHashExactly(digest: Digest, p: DownloadQuery, q: DownloadQuery)
    requires Injective(digest)
    ensures CriteriaHash(digest, p) == CriteriaHash(digest, q) <==> SameCriteria(p, q)
  {
    SortForgetsOrder(Uppers(p.receiverRfcs), Uppers(q.receiverRfcs));
    hide Upper, UpperIfAny, Uppers, SortBy;
  }

  /** One whole day of UTC, written with an offset. */
  function DayAt(day: int, offset: int): Period {
    Period(Stamp(day * DAY + offset, Some(offset)), Stamp((day + 1) * DAY + offset, Some(offset)))
  }

  /** One day, written in UTC and an hour east of it: the same instants, and another hash. */
  lemma OffsetChangesHash(digest: Digest, q: DownloadQuery, day: int)
    requires Injective(digest) && 1 <= day < MAX_DAY
    ensures DayAt(day, 0).start.At() == DayAt(day, HOUR).start.At()
    ensures DayAt(day, 0).end.At() == DayAt(day, HOUR).end.At()
    ensures CriteriaHash(digest, q.(period := Some(DayAt(day, 0))))
            != CriteriaHash(digest, q.(period := Some(DayAt(day, HOUR))))
  {
    SameHashExactly(digest, q.(period := Some(DayAt(day, 0))), q.(period := Some(DayAt(day, HOUR))));
    hide CriteriaHash, Upper, Uppers;
    assert DayAt(day, 0).start.wall != DayAt(day, HOUR).start.wall;
  }

  // ----- The queue payload -----

  /** The payload has no field for the recovery variant. */
  datatype Payload = Payload(
    tenantId: string,
    requesterRfc: string,
    direction: Direction,
    requestType: RequestType,
    period: Option<Period>,
    issuerRfc: Option<string>,
    receiverRfcs: seq<string>,
    uuid: Option<string>,
    documentStatus: Option<string>,
    documentType: Option<string>,
    complement: Option<string>,
    rfcOnBehalf: Option<string>)

  function ToPayload(q: DownloadQuery): Payload {
    Payload(
      q.tenantId, Upper(q.requesterRfc), q.direction, q.requestType, q.period, q.issuerRfc, q.receiverRfcs, q.uuid,
      q.documentStatus, q.documentType, q.complement, q.rfcOnBehalf)
  }

  /** `str(x) if x else None`. */
  function IfAny(value: Option<string>): Option<string> {
    if value.None? || value.value == "" then None else value
  }

  function FromPayload(p: Payload): DownloadQuery {
    DownloadQuery(
      p.tenantId, p.requesterRfc, p.direction, p.requestType, p.period, IfAny(p.issuerRfc), p.receiverRfcs,
      IfAny(p.uuid),
      IfAny(p.documentStatus), IfAny(p.documentType), IfAny(p.complement), IfAny(p.rfcOnBehalf), None)
  }

  /** A query keeps its criteria hash through the queue exactly when it carries no recovery variant and
      none of status, type and complement is an empty string. */
  lemma HashSurvivesQueueExactly(digest: Digest, q: DownloadQuery)
    requires Injective(digest)
    ensures CriteriaHash(digest, FromPayload(ToPayload(q))) == CriteriaHash(digest, q) <==>
              && q.recoveryVariantReason.None?
              && q.documentStatus != Some("") && q.documentType != Some("") && q.complement != Some("")
  {
    UpperIdempotent(q.requesterRfc);
    SameHashExactly(digest, FromPayload(ToPayload(q)), q);
    hide Upper, Uppers, CriteriaHash;
  }

  /** A query comes out of the queue as it went in exactly when its own RFC is in upper case, none of its optional
      texts is empty and it carries no recovery variant. */
  lemma QueueKeepsExactly(q: DownloadQuery)
    ensures FromPayload(ToPayload(q)) == q <==>
              && Upper(q.requesterRfc) == q.requesterRfc && q.recoveryVariantReason.None?
              && q.issuerRfc != Some("") && q.uuid != Some("") && q.rfcOnBehalf != Some("")
              && q.documentStatus != Some("") && q.documentType != Some("") && q.complement != Some("")
    ensures FromPayload(ToPayload(q)).requesterRfc == Upper(q.requesterRfc)
  {
    hide Upper;
  }

  /** A query with a recovery variant comes out of the queue with another hash. */
  lemma VariantIsLost(digest: Digest, q: DownloadQuery)
    requires Injective(digest)
    ensures var v := q.(recoveryVariantReason := Some("retry"));
            CriteriaHash(digest, FromPayload(ToPayload(v))) != CriteriaHash(digest, v)
  {
    HashSurvivesQueueExactly(digest, q.(recoveryVariantReason := Some("retry")));
  }

  /** So does one whose status is an empty text. */
  lemma EmptyStatusIsLost(digest: Digest, q: DownloadQuery)
    requires Injective(digest)
    ensures var v := q.(documentStatus := Some(""));
            CriteriaHash(digest, FromPayload(ToPayload(v))) != CriteriaHash(digest, v)
  {
    HashSurvivesQueueExactly(digest, q.(documentStatus := Some("")));
  }
}
