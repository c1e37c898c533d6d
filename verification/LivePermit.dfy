/** One-time permits: who may create one, and which attempt consumes it. */
module LivePermit {
  import opened Wrappers
  import opened Clock
  import opened Text

  datatype Scope =
    | TransportProbe | AuthPostProbe | VerifyPostProbe | AuthMatrixProbe | AuthLiveSmoke
    | MetadataLiveSmoke | BackfillSubmit | PackageDownload | UnknownScope(text: string)

  const MAX_EXPIRES_MINUTES: int := 15
  const MAX_RANGE_DAYS: int := 1
  const MAX_BACKFILL_RANGE_DAYS: int := 7
  const MAX_ATTEMPTS: int := 1
  const ISSUER := "carlos-local"
  const SECURITY_ONLY := "security_only"
  const ENVELOPE_VARIANTS := {"security_only", "action_before_security", "security_before_action"}

  predicate NeedsCredentials(s: Scope) {
    s.AuthLiveSmoke? || s.MetadataLiveSmoke? || s.BackfillSubmit? || s.PackageDownload?
  }

  predicate IsProbe(s: Scope) {
    s.TransportProbe? || s.AuthPostProbe? || s.VerifyPostProbe? || s.AuthMatrixProbe?
  }

  function MaxRangeDays(s: Scope): int {
    if s.BackfillSubmit? || s.MetadataLiveSmoke? || s.PackageDownload? then MAX_BACKFILL_RANGE_DAYS else MAX_RANGE_DAYS
  }

  /** Date texts: reading one may fail, writing a day gives a text that reads back. */
  datatype Calendar = Calendar(parse: string -> Option<int>, iso: int -> string)

  ghost predicate ReadsBack(c: Calendar) {
    forall d :: c.parse(c.iso(d)) == Some(d)
  }

  predicate Alphanumeric(c: char) {
    'a' <= c <= 'z' || 'A' <= c <= 'Z' || '0' <= c <= '9'
  }

  predicate ProfileChar(c: char) {
    Alphanumeric(c) || c == '.' || c == '_' || c == '-'
  }

  /** `validate_profile_id`. */
  function SafeProfile(id: string): Option<string> {
    var t := Strip(id);
    if 2 <= |t| <= 64 && Alphanumeric(t[0]) && forall i :: 0 <= i < |t| ==> ProfileChar(t[i]) then Some(t) else None
  }

  /** A profile id typed with a space in front loads the profile without it. */
  lemma SpacedProfileLoads()
    ensures SafeProfile(" default") == Some("default") && " default" != "default"
  {
    assert " default"[1..] == "default";
    assert StripLeft("default") == "default" && StripRight("default") == "default";
    assert StripLeft(" default") == "default";
    assert |" default"| != |"default"|;
  }

  datatype Error =
    | InvalidScope | InvalidProfile | MetadataRequired | InvalidDirection
    | InvalidDate | InvalidDateRange | RangeTooWide
    | ReasonRequired | InvalidIssuer | InvalidExpiration | InvalidVariant | ActionHeaderRequired | EnvelopeNotApplicable
    | ExpectationRequired | Mismatch(field: string)
    | AlreadyConsumed | PermitExpired | RangePolicy | AttemptPolicy | RealSatNotAllowed | CredentialsNotAllowed
    | UnneededCredentials | VariantRequired | RedactionRequired | RepoMismatch

  function DateRangeError(c: Calendar, dateFrom: string, dateTo: string, maxDays: int): Option<Error> {
    match (c.parse(dateFrom), c.parse(dateTo))
    case (Some(a), Some(b)) =>
      if b < a then Some(InvalidDateRange) else if b - a + 1 > maxDays then Some(RangeTooWide) else None
    case _ => Some(InvalidDate)
  }

  datatype Request = Request(
    scope: Scope, profileId: string, kind: string, direction: string, dateFrom: string, dateTo: string,
    reason: string, expiresMinutes: int, issuedBy: string, variant: Option<string>, wcfHeader: Option<bool>)

  datatype Permit = Permit(
    id: string, scope: Scope, profileId: string, kind: string, direction: string, dateFrom: string, dateTo: string,
    maxRangeDays: int, maxAttempts: int, allowRealSat: bool, allowRealCredentials: bool,
    createdAt: Instant, expiresAt: Instant, issuedBy: string, reason: string,
    consumed: bool, consumedAt: Option<Instant>, redactionRequired: bool, repoHash: string,
    variant: Option<string>, wcfHeader: Option<bool>)

  /** The envelope options of a validated request. */
  function EnvelopeOptions(r: Request): Result<(Option<string>, Option<bool>), Error> {
    if r.scope.AuthLiveSmoke? then
      var variant := if r.variant.Some? && r.variant.value != "" then r.variant.value else SECURITY_ONLY;
      if variant !in ENVELOPE_VARIANTS then Err(InvalidVariant)
      else
        var header := if r.wcfHeader.Some? then r.wcfHeader.value else variant != SECURITY_ONLY;
        if variant != SECURITY_ONLY && !header then Err(ActionHeaderRequired) else Ok((Some(variant), Some(header)))
    else if r.variant.Some? || r.wcfHeader.Some? then Err(EnvelopeNotApplicable)
    else Ok((None, None))
  }

  /** `create_live_execution_permit`. */
  function Create(c: Calendar, r: Request, id: string, now: Instant, repoHash: string): Result<Permit, Error> {
    if r.scope.UnknownScope? then Err(InvalidScope)
    else if SafeProfile(r.profileId).None? then Err(InvalidProfile)
    else if r.kind != "metadata" then Err(MetadataRequired)
    else if r.direction != "received" && r.direction != "issued" then Err(InvalidDirection)
    else
      var range := DateRangeError(c, r.dateFrom, r.dateTo, MaxRangeDays(r.scope));
      if range.Some? then Err(range.value)
      else if Strip(r.reason) == "" then Err(ReasonRequired)
      else if r.issuedBy != ISSUER then Err(InvalidIssuer)
      else if r.expiresMinutes < 1 || r.expiresMinutes > MAX_EXPIRES_MINUTES then Err(InvalidExpiration)
      else match EnvelopeOptions(r)
        case Err(e) => Err(e)
        case Ok((variant, header)) =>
          Ok(Permit(
               id, r.scope, SafeProfile(r.profileId).value, r.kind, r.direction, r.dateFrom, r.dateTo,
               MaxRangeDays(r.scope), MAX_ATTEMPTS, true, NeedsCredentials(r.scope),
               now, now + r.expiresMinutes * MINUTE,
               r.issuedBy, Strip(r.reason), false, None, true, repoHash, variant, header))
  }

  /** What the operation about to run expects of its permit. */
  datatype Expectation = Expectation(
    scope: Scope, profileId: string, kind: string, direction: string, dateFrom: string, dateTo: string,
    variant: Option<string>, wcfHeader: Option<bool>)

  function ExpectationError(p: Permit, e: Expectation): Option<Error> {
    if e.scope.AuthLiveSmoke? && (e.variant.None? || e.wcfHeader.None?) then Some(ExpectationRequired)
    else if SafeProfile(e.profileId).None? then Some(InvalidProfile)
    else if p.scope != e.scope then Some(Mismatch("scope"))
    else if p.profileId != SafeProfile(e.profileId).value then Some(Mismatch("profileId"))
    else if p.kind != e.kind then Some(Mismatch("kind"))
    else if p.direction != e.direction then Some(Mismatch("direction"))
    else if p.dateFrom != e.dateFrom then Some(Mismatch("dateFrom"))
    else if p.dateTo != e.dateTo then Some(Mismatch("dateTo"))
    else if e.variant.Some? && (if p.variant.Some? then p.variant.value else "") != e.variant.value then
      Some(Mismatch("authEnvelopeVariant"))
    else if e.wcfHeader.Some? && p.wcfHeader != e.wcfHeader then Some(Mismatch("wcfActionHeaderEnabled"))
    else None
  }

  /** `_validate_document_policy`. */
  function PolicyError(c: Calendar, p: Permit, now: Instant, repoHash: string): Option<Error> {
    if p.consumed then Some(AlreadyConsumed)
    else if p.expiresAt <= now then Some(PermitExpired)
    else if p.maxRangeDays != MaxRangeDays(p.scope) then Some(RangePolicy)
    else if p.maxAttempts != MAX_ATTEMPTS then Some(AttemptPolicy)
    else if p.kind != "metadata" then Some(MetadataRequired)
    else if DateRangeError(c, p.dateFrom, p.dateTo, p.maxRangeDays).Some? then
      DateRangeError(c, p.dateFrom, p.dateTo, p.maxRangeDays)
    else if !p.allowRealSat then Some(RealSatNotAllowed)
    else if NeedsCredentials(p.scope) && !p.allowRealCredentials then Some(CredentialsNotAllowed)
    else if IsProbe(p.scope) && p.allowRealCredentials then Some(UnneededCredentials)
    else if p.scope.UnknownScope? then Some(InvalidScope)
    else if p.scope.AuthLiveSmoke? && (p.variant.None? || p.variant.value !in ENVELOPE_VARIANTS) then
      Some(VariantRequired)
    else if p.scope.AuthLiveSmoke? && p.variant.value != SECURITY_ONLY && p.wcfHeader != Some(true) then
      Some(ActionHeaderRequired)
    else if !p.scope.AuthLiveSmoke? && (p.variant.Some? || p.wcfHeader.Some?) then Some(EnvelopeNotApplicable)
    else if !p.redactionRequired then Some(RedactionRequired)
    else if p.repoHash != repoHash then Some(RepoMismatch)
    else None
  }

  /** `validate_and_consume_live_permit`, on the stored permit. */
  function Consume(c: Calendar, p: Permit, e: Expectation, now: Instant, repoHash: string): Result<Permit, Error> {
    if ExpectationError(p, e).Some? then Err(ExpectationError(p, e).value)
    else if PolicyError(c, p, now, repoHash).Some? then Err(PolicyError(c, p, now, repoHash).value)
    else Ok(p.(consumed := true, consumedAt := Some(now)))
  }

  /** A permit that creation produced, consumed or not. */
  ghost predicate Issued(c: Calendar, p: Permit) {
    exists r, now: Instant :: Create(c, r, p.id, now, p.repoHash) == Ok(p.(consumed := false, consumedAt := None))
  }

  /** Creation never hands out a permit that the policy check would refuse for its own content: the two
      separately written lists of conditions agree. */
  lemma CreatedPassesPolicyExactly(c: Calendar, p: Permit, now: Instant, repoHash: string)
    requires Issued(c, p)
    ensures PolicyError(c, p, now, repoHash).None? <==> !p.consumed && now < p.expiresAt && repoHash == p.repoHash
  {
    hide Strip, SafeProfile;
  }

  // ----- Histories -----

  datatype Attempt = Attempt(expectation: Expectation, now: Instant, repoHash: string)

  /** The permit is for what the operation is about to do: the same scope, the profile that the given id
      loads, the same kind, direction and dates, and the same envelope options where the operation names
      some, which it must for an authentication smoke. */
  predicate IsFor(p: Permit, e: Expectation) {
    && p.scope == e.scope && SafeProfile(e.profileId) == Some(p.profileId)
    && p.kind == e.kind && p.direction == e.direction && p.dateFrom == e.dateFrom && p.dateTo == e.dateTo
    && (e.variant.Some? ==> p.variant == e.variant || (p.variant.None? && e.variant.value == ""))
    && (e.wcfHeader.Some? ==> p.wcfHeader == e.wcfHeader)
    && (e.scope.AuthLiveSmoke? ==> e.variant.Some? && e.wcfHeader.Some?)
  }

  /** And it is used in time and in the checkout it was made for. */
  predicate Meets(p: Permit, a: Attempt) {
    IsFor(p, a.expectation) && a.now < p.expiresAt && a.repoHash == p.repoHash
  }

  /** What a stored permit document must say for itself, whoever wrote it. */
  predicate SoundDocument(c: Calendar, p: Permit) {
    var smoke := p.scope == AuthLiveSmoke;
    var wide := p.scope == BackfillSubmit || p.scope == MetadataLiveSmoke || p.scope == PackageDownload;
    var probe := p.scope == TransportProbe || p.scope == AuthPostProbe || p.scope == VerifyPostProbe
                 || p.scope == AuthMatrixProbe;
    && (smoke || wide || probe)
    && p.maxRangeDays == (if wide then 7 else 1) && p.maxAttempts == 1 && p.kind == "metadata"
    && c.parse(p.dateFrom).Some? && c.parse(p.dateTo).Some?
    && (var days := c.parse(p.dateTo).value - c.parse(p.dateFrom).value; 0 <= days < p.maxRangeDays)
    && p.allowRealSat && p.redactionRequired && (p.allowRealCredentials <==> !probe)
    && (if smoke then
          p.variant.Some? && p.variant.value in {"security_only", "action_before_security", "security_before_action"}
          && (p.variant.value != "security_only" ==> p.wcfHeader == Some(true))
        else p.variant.None? && p.wcfHeader.None?)
  }

  /** An attempt on a stored document is let through exactly when the permit is for it, sound, unused,
      unexpired and of this checkout; the document is then marked as used at that time, and keeps the rest. */
  lemma ConsumeExactly(c: Calendar, p: Permit, e: Expectation, now: Instant, repoHash: string)
    ensures var r := Consume(c, p, e, now, repoHash);
            && (r.Ok?
                <==> IsFor(p, e) && SoundDocument(c, p) && !p.consumed && now < p.expiresAt && repoHash == p.repoHash)
            && (r.Ok? ==> r.value == p.(consumed := true, consumedAt := Some(now)))
  {
    ExpectationExactly(p, e);
    PolicyExactly(c, p, now, repoHash);
    hide ExpectationError, PolicyError, SoundDocument, IsFor;
  }

  lemma ExpectationExactly(p: Permit, e: Expectation)
    ensures ExpectationError(p, e).None? <==> IsFor(p, e)
  {
    hide SafeProfile;
  }

  lemma PolicyExactly(c: Calendar, p: Permit, now: Instant, repoHash: string)
    ensures PolicyError(c, p, now, repoHash).None?
            <==> SoundDocument(c, p) && !p.consumed && now < p.expiresAt && repoHash == p.repoHash
  {
  }

  /** Which field an attempt is refused for: the first that differs, in this order. */
  lemma RefusedField(c: Calendar, p: Permit, e: Expectation, now: Instant, repoHash: string)
    requires SafeProfile(e.profileId).Some? && (e.scope.AuthLiveSmoke? ==> e.variant.Some? && e.wcfHeader.Some?)
    ensures var r := Consume(c, p, e, now, repoHash);
            var scope, profile := p.scope == e.scope, SafeProfile(e.profileId) == Some(p.profileId);
            var kind, direction := p.kind == e.kind, p.direction == e.direction;
            var start, end := p.dateFrom == e.dateFrom, p.dateTo == e.dateTo;
            var named := scope && profile && kind && direction && start && end;
            var variant := e.variant.Some? ==> p.variant == e.variant || (p.variant.None? && e.variant.value == "");
            && (r == Err(Mismatch("scope")) <==> !scope)
            && (r == Err(Mismatch("profileId")) <==> scope && !profile)
            && (r == Err(Mismatch("kind")) <==> scope && profile && !kind)
            && (r == Err(Mismatch("direction")) <==> scope && profile && kind && !direction)
            && (r == Err(Mismatch("dateFrom")) <==> scope && profile && kind && direction && !start)
            && (r == Err(Mismatch("dateTo")) <==> scope && profile && kind && direction && start && !end)
            && (r == Err(Mismatch("authEnvelopeVariant")) <==> named && !variant)
            && (r == Err(Mismatch("wcfActionHeaderEnabled")) <==>
                  named && variant && e.wcfHeader.Some? && p.wcfHeader != e.wcfHeader)
  {
    PolicyIsNoMismatch(c, p, now, repoHash);
    FieldNamesDiffer();
    hide PolicyError, SafeProfile;
  }

  lemma PolicyIsNoMismatch(c: Calendar, p: Permit, now: Instant, repoHash: string)
    ensures PolicyError(c, p, now, repoHash).Some? ==> !PolicyError(c, p, now, repoHash).value.Mismatch?
  {
  }

  lemma FieldNamesDiffer()
    ensures |"scope"| == 5 && |"profileId"| == 9 && |"kind"| == 4 && |"direction"| == 9 && |"dateFrom"| == 8
    ensures |"dateTo"| == 6 && |"authEnvelopeVariant"| == 19 && |"wcfActionHeaderEnabled"| == 22
    ensures "profileId"[0] != "direction"[0]
  {
  }

  /** A permit that is for an operation and sound is refused for the state of its document or its
      surroundings: used before expired before made elsewhere. */
  lemma RefusedState(c: Calendar, p: Permit, e: Expectation, now: Instant, repoHash: string)
    requires IsFor(p, e) && SoundDocument(c, p)
    ensures var r := Consume(c, p, e, now, repoHash);
            && (r == Err(AlreadyConsumed) <==> p.consumed)
            && (r == Err(PermitExpired) <==> !p.consumed && p.expiresAt <= now)
            && (r == Err(RepoMismatch) <==> !p.consumed && now < p.expiresAt && p.repoHash != repoHash)
  {
    ExpectationExactly(p, e);
    hide ExpectationError, IsFor;
  }

  /** What creation grants: any known scope for metadata in one direction, for dates in order and within the
      scope's days, with a reason, by the one issuer, for one to fifteen minutes, and envelope options that
      fit the scope; and the permit says what was asked for. */
  lemma CreateExactly(c: Calendar, r: Request, id: string, now: Instant, repoHash: string)
    ensures var p := Create(c, r, id, now, repoHash);
            var wide := r.scope == BackfillSubmit || r.scope == MetadataLiveSmoke || r.scope == PackageDownload;
            && (p.Ok? <==>
                  && !r.scope.UnknownScope? && SafeProfile(r.profileId).Some? && r.kind == "metadata"
                  && (r.direction == "received" || r.direction == "issued")
                  && c.parse(r.dateFrom).Some? && c.parse(r.dateTo).Some?
                  && (var days := c.parse(r.dateTo).value - c.parse(r.dateFrom).value;
                      0 <= days < if wide then 7 else 1)
                  && Strip(r.reason) != "" && r.issuedBy == "carlos-local" && 1 <= r.expiresMinutes <= 15
                  && EnvelopeFits(r))
            && (p.Ok? ==>
                  && p.value.id == id && p.value.scope == r.scope && Some(p.value.profileId) == SafeProfile(r.profileId)
                  && p.value.kind == r.kind && p.value.direction == r.direction
                  && p.value.dateFrom == r.dateFrom && p.value.dateTo == r.dateTo
                  && p.value.createdAt == now && p.value.expiresAt == now + r.expiresMinutes * MINUTE
                  && p.value.reason == Strip(r.reason) && p.value.issuedBy == r.issuedBy && p.value.repoHash == repoHash
                  && !p.value.consumed && p.value.consumedAt.None?
                  && (r.scope == AuthLiveSmoke ==>
                        var named := r.variant.Some? && r.variant.value != "";
                        && p.value.variant == (if named then r.variant else Some("security_only"))
                        && p.value.wcfHeader == (if r.wcfHeader.Some? then r.wcfHeader
                                                 else Some(named && r.variant.value != "security_only")))
                  && (r.scope != AuthLiveSmoke ==> p.value.variant.None? && p.value.wcfHeader.None?))
  {
    hide SafeProfile, Strip;
  }

  /** Why creation refuses, in the order of its checks. */
  lemma CreateRefuses(c: Calendar, r: Request, id: string, now: Instant, repoHash: string)
    ensures var p := Create(c, r, id, now, repoHash);
            var wide := r.scope == BackfillSubmit || r.scope == MetadataLiveSmoke || r.scope == PackageDownload;
            var start, end := c.parse(r.dateFrom), c.parse(r.dateTo);
            if r.scope.UnknownScope? then p == Err(InvalidScope)
            else if SafeProfile(r.profileId).None? then p == Err(InvalidProfile)
            else if r.kind != "metadata" then p == Err(MetadataRequired)
            else if r.direction !in {"received", "issued"} then p == Err(InvalidDirection)
            else if start.None? || end.None? then p == Err(InvalidDate)
            else if end.value < start.value then p == Err(InvalidDateRange)
            else if end.value >= start.value + (if wide then 7 else 1) then p == Err(RangeTooWide)
            else if Strip(r.reason) == "" then p == Err(ReasonRequired)
            else if r.issuedBy != "carlos-local" then p == Err(InvalidIssuer)
            else if !(0 < r.expiresMinutes <= 15) then p == Err(InvalidExpiration)
            else if EnvelopeFits(r) then p.Ok?
            else p.Err? && p.error in {InvalidVariant, ActionHeaderRequired, EnvelopeNotApplicable}
  {
    hide SafeProfile, Strip;
  }

  /** Only an authentication smoke has envelope options; a variant other than the default needs the action
      header, which it also has if none is named. */
  predicate EnvelopeFits(r: Request) {
    if r.scope == AuthLiveSmoke then
      var named := r.variant.Some? && r.variant.value != "" && r.variant.value != "security_only";
      named ==>
        && r.variant.value in {"action_before_security", "security_before_action"}
        && r.wcfHeader != Some(false)
    else r.variant.None? && r.wcfHeader.None?
  }

  /** The stored permit after a sequence of attempts, and how many of them were let through. */
  function Attempts(c: Calendar, p: Permit, s: seq<Attempt>): (Permit, nat) {
    if s == [] then (p, 0)
    else
      var (q, n) := Attempts(c, p, s[..|s| - 1]);
      var last := s[|s| - 1];
      match Consume(c, q, last.expectation, last.now, last.repoHash)
      case Ok(used) => (used, n + 1)
      case Err(_) => (q, n)
  }

  function Used(p: Permit, at: Option<Instant>): Permit {
    p.(consumed := true, consumedAt := at)
  }

  lemma FirstUse(c: Calendar, p: Permit, a: Attempt)
    requires Issued(c, p) && !p.consumed
    ensures var r := Consume(c, p, a.expectation, a.now, a.repoHash);
            (r.Ok? <==> Meets(p, a)) && (r.Ok? ==> r.value == Used(p, Some(a.now)))
  {
    CreatedPassesPolicyExactly(c, p, a.now, a.repoHash);
    ExpectationExactly(p, a.expectation);
    hide Issued, PolicyError, ExpectationError, IsFor;
  }

  lemma SecondUse(c: Calendar, p: Permit, at: Option<Instant>, a: Attempt)
    ensures Consume(c, Used(p, at), a.expectation, a.now, a.repoHash).Err?
  {
    hide ExpectationError, DateRangeError;
  }

  lemma {:induction false} AttemptsUseOnce(c: Calendar, p: Permit, s: seq<Attempt>)
    requires Issued(c, p) && !p.consumed
    ensures var (q, n) := Attempts(c, p, s);
            && ((n == 0 && q == p) || (n == 1 && q == Used(p, q.consumedAt)))
            && (n == 1 <==> AnyMeets(p, s))
  {
    if s != [] {
      hide Issued, Consume, Meets, Used, AnyMeets;
      var front, last := s[..|s| - 1], s[|s| - 1];
      AttemptsUseOnce(c, p, front);
      FirstUse(c, p, last);
      SecondUse(c, p, Attempts(c, p, front).0.consumedAt, last);
      UsedAt(p, Some(last.now));
      AnyMeetsSnoc(p, s);
    }
  }

  predicate AnyMeets(p: Permit, s: seq<Attempt>) {
    exists i :: 0 <= i < |s| && Meets(p, s[i])
  }

  lemma AnyMeetsSnoc(p: Permit, s: seq<Attempt>)
    requires s != []
    ensures AnyMeets(p, s) <==> AnyMeets(p, s[..|s| - 1]) || Meets(p, s[|s| - 1])
  {
    hide Meets;
    var front := s[..|s| - 1];
    assert forall i :: 0 <= i < |front| ==> s[i] == front[i];
  }

  lemma UsedAt(p: Permit, at: Option<Instant>)
    ensures Used(p, at).consumedAt == at && Used(p, at).consumed
  {
  }

  /** The attempt that used a permit had the permit's own fields, and came in time and from its checkout. */
  lemma {:induction false} UsedByItsOwn(c: Calendar, p: Permit, s: seq<Attempt>)
    requires Issued(c, p) && !p.consumed && Attempts(c, p, s).1 == 1
    ensures exists i :: 0 <= i < |s| && Meets(p, s[i]) && Attempts(c, p, s).0.consumedAt == Some(s[i].now)
  {
    hide Issued, Consume, Meets, Used, AnyMeets;
    var front, last := s[..|s| - 1], s[|s| - 1];
    AttemptsUseOnce(c, p, front);
    FirstUse(c, p, last);
    SecondUse(c, p, Attempts(c, p, front).0.consumedAt, last);
    UsedAt(p, Some(last.now));
    if Attempts(c, p, front).1 == 1 {
      UsedByItsOwn(c, p, front);
      var i :| 0 <= i < |front| && Meets(p, front[i]) && Attempts(c, p, front).0.consumedAt == Some(front[i].now);
      assert s[i] == front[i];
    }
  }

  /** Exactly one attempt of any sequence is let through if one of them meets the permit in time and in
      the same checkout, and none otherwise. */
  lemma ConsumableExactlyOnce(c: Calendar, r: Request, id: string, created: Instant, repoHash: string, s: seq<Attempt>)
    requires Create(c, r, id, created, repoHash).Ok?
    ensures var p := Create(c, r, id, created, repoHash).value;
            Attempts(c, p, s).1 == if AnyMeets(p, s) then 1 else 0
  {
    hide Create, Issued, Meets, Attempts;
    CreatedIsIssued(c, r, id, created, repoHash);
    AttemptsUseOnce(c, Create(c, r, id, created, repoHash).value, s);
  }

  lemma CreatedIsIssued(c: Calendar, r: Request, id: string, created: Instant, repoHash: string)
    requires Create(c, r, id, created, repoHash).Ok?
    ensures var p := Create(c, r, id, created, repoHash).value; Issued(c, p) && !p.consumed && p.consumedAt.None?
  {
    var p := Create(c, r, id, created, repoHash).value;
    assert p.(consumed := false, consumedAt := None) == p;
    assert p.id == id && p.repoHash == repoHash;
  }

  /** The stored permit document. */
  class PermitFile {
    var permit: Permit

    constructor (permit: Permit)
      ensures this.permit == permit
    {
      this.permit := permit;
    }

    method ValidateAndConsume(c: Calendar, e: Expectation, now: Instant, repoHash: string)
      returns (r: Result<Permit, Error>)
      modifies this
      ensures r == Consume(c, old(permit), e, now, repoHash)
      ensures permit == if r.Ok? then r.value else old(permit)
    {
      var mismatch := ExpectationError(permit, e);
      if mismatch.Some? {
        return Err(mismatch.value);
      }
      var refusal := PolicyError(c, permit, now, repoHash);
      if refusal.Some? {
        return Err(refusal.value);
      }
      permit := permit.(consumed := true, consumedAt := Some(now));
      return Ok(permit);
    }
  }
}
