/**
 * Delegated authority: which controller of a principal may grant or revoke what and when, the state that accepted
 * events leave, the auditor's replay of a whole history, and the relying party's check of its latest grant.
 */
module Delegation {
  import opened Common

  const PROTOCOL: string := "agent-delegation/1.0"

  datatype Policy = Policy(scopes: seq<string>, audiences: seq<string>)

  datatype Authority = Unrestricted(token: string) | Restricted(policy: Policy)

  datatype Controller = Controller(
    id: string, source: string, validFrom: int, name: Option<string>, delegation: Option<Authority>,
    retiredAt: Option<int>, invalidFrom: Option<int>)

  datatype PrincipalDocument = PrincipalDocument(
    id: string, protocol: string, controllers: seq<Controller>, retired: seq<Controller>,
    aliases: seq<string>, avatarUrl: Option<string>, service: Option<string>, updatedAt: int)

  datatype GrantPayload = GrantPayload(
    id: string, principalId: string, subject: string, relationship: Option<string>, scopes: seq<string>,
    audiences: seq<string>, constraints: Option<string>, notBefore: Option<int>, expiresAt: Option<int>)

  datatype Payload = Grant(grant: GrantPayload) | Revoke(id: string, principalId: string, reason: Option<string>)

  datatype EventType = GrantType | RevokeType | OtherType

  datatype Event = Event(protocol: string, kind: EventType, actor: string, createdAt: int, payload: Payload)

  datatype Envelope = Envelope(hash: string, event: Event)

  datatype Record = Record(envelope: Envelope, acceptedAt: int)

  datatype Status = Active | Suspended | Expired | Revoked

  datatype Credential = Credential(
    grant: GrantPayload, protocol: string, status: Status, controller: string,
    grantEventId: string, eventId: string, acceptedAt: int, checkedAt: int)

  /** Key, URL and text rules, signatures, and canonical JSON, all opaque. */
  datatype Rules = Rules(
    keyValid: string -> bool, originValid: string -> bool, urlValid: string -> bool, idValid: string -> bool,
    audienceValid: string -> bool, blank: string -> bool, signed: Envelope -> bool, canonical: GrantPayload -> string)

  datatype Error =
    | InvalidEnvelope | InvalidPayload | GrantExpired | PrincipalNotCanonical | ControllerNotCurrent
    | DelegationNotPermitted | CeilingExceeded | CredentialNotFound | IdentityMismatch | Mismatch

  // ---- Documents ----------------------------------------------------------

  /** A non-empty list of distinct, non-blank strings without a wildcard. */
  predicate StringsValid(rules: Rules, values: seq<string>) {
    values != [] && DistinctTexts(rules, values)
  }

  predicate DistinctTexts(rules: Rules, values: seq<string>) {
    && (forall i | 0 <= i < |values| :: !rules.blank(values[i]) && values[i] != "*")
    && forall i, j | 0 <= i < j < |values| :: values[i] != values[j]
  }

  predicate AudiencesValid(rules: Rules, audiences: seq<string>) {
    StringsValid(rules, audiences) && forall i | 0 <= i < |audiences| :: rules.audienceValid(audiences[i])
  }

  predicate AuthorityValid(rules: Rules, a: Authority) {
    match a
    case Unrestricted(token) => token == "*"
    case Restricted(policy) => StringsValid(rules, policy.scopes) && AudiencesValid(rules, policy.audiences)
  }

  predicate ControllerValid(rules: Rules, c: Controller, retired: bool) {
    && rules.keyValid(c.id) && (c.source == "local" || rules.originValid(c.source)) && SafeTime(c.validFrom)
    && (c.name.Some? ==> !rules.blank(c.name.value))
    && (c.delegation.Some? ==> AuthorityValid(rules, c.delegation.value))
    && (if retired then
          && c.retiredAt.Some? && SafeTime(c.retiredAt.value) && c.validFrom <= c.retiredAt.value
          && (c.invalidFrom.Some? ==>
                SafeTime(c.invalidFrom.value) && c.validFrom <= c.invalidFrom.value <= c.retiredAt.value)
        else c.retiredAt.None? && c.invalidFrom.None?)
  }

  predicate TimelyController(c: Controller, updatedAt: int) {
    c.validFrom <= updatedAt && (c.retiredAt.Some? ==> c.retiredAt.value <= updatedAt)
  }

  predicate DistinctKeys(controllers: seq<Controller>) {
    forall i, j | 0 <= i < j < |controllers| :: controllers[i].id != controllers[j].id
  }

  predicate DocumentValid(rules: Rules, d: PrincipalDocument) {
    var all := d.controllers + d.retired;
    && rules.urlValid(d.id) && d.protocol == PROTOCOL && SafeTime(d.updatedAt)
    && (forall c | c in d.controllers :: ControllerValid(rules, c, false))
    && (forall c | c in d.retired :: ControllerValid(rules, c, true))
    && (forall c | c in all :: TimelyController(c, d.updatedAt))
    && DistinctKeys(all)
    && DistinctTexts(rules, d.aliases) && (forall a | a in d.aliases :: rules.urlValid(a))
    && (d.avatarUrl.Some? ==> rules.urlValid(d.avatarUrl.value))
    && (if d.service.Some? then rules.originValid(d.service.value) else forall c | c in all :: c.delegation.None?)
  }

  method ValidatePrincipalDocument(rules: Rules, d: PrincipalDocument) returns (r: Result<(), Error>)
    ensures r.Ok? <==> DocumentValid(rules, d)
  {
    hide ControllerValid, TimelyController, DistinctTexts;
    if !rules.urlValid(d.id) || d.protocol != PROTOCOL || !SafeTime(d.updatedAt) {
      return Err(InvalidPayload);
    }
    var all := d.controllers + d.retired;
    var keys: set<string>, delegates := {}, false;
    for i := 0 to |all|
      invariant keys == set j | 0 <= j < i :: all[j].id
      invariant forall j, k | 0 <= j < k < i :: all[j].id != all[k].id
      invariant forall j | 0 <= j < i ::
                  ControllerValid(rules, all[j], j >= |d.controllers|) && TimelyController(all[j], d.updatedAt)
      invariant delegates <==> exists j | 0 <= j < i :: all[j].delegation.Some?
    {
      var c := all[i];
      assert c in all && (if i < |d.controllers| then c in d.controllers else c in d.retired);
      if !ControllerValid(rules, c, i >= |d.controllers|) || c.id in keys || !TimelyController(c, d.updatedAt) {
        return Err(InvalidPayload);
      }
      keys := keys + {c.id};
      delegates := delegates || c.delegation.Some?;
    }
    forall c | c in d.controllers
      ensures ControllerValid(rules, c, false)
    {
      var i :| 0 <= i < |d.controllers| && d.controllers[i] == c;
      assert all[i] == c;
    }
    forall c | c in d.retired
      ensures ControllerValid(rules, c, true)
    {
      var i :| 0 <= i < |d.retired| && d.retired[i] == c;
      assert all[|d.controllers| + i] == c;
    }
    if !DistinctTexts(rules, d.aliases) {
      return Err(InvalidPayload);
    }
    for i := 0 to |d.aliases|
      invariant forall j | 0 <= j < i :: rules.urlValid(d.aliases[j])
    {
      if !rules.urlValid(d.aliases[i]) {
        assert d.aliases[i] in d.aliases;
        return Err(InvalidPayload);
      }
    }
    if d.avatarUrl.Some? && !rules.urlValid(d.avatarUrl.value) {
      return Err(InvalidPayload);
    }
    if d.service.Some? && !rules.originValid(d.service.value) {
      return Err(InvalidPayload);
    }
    if d.service.None? && delegates {
      return Err(InvalidPayload);
    }
    r := Ok(());
  }

  // ---- Events and credentials ---------------------------------------------

  /** Structural rules for a grant, and that it does not end before it starts. */
  function GrantRefusal(rules: Rules, g: GrantPayload, createdAt: Option<int>): Option<Error> {
    if !rules.idValid(g.id) || !rules.urlValid(g.principalId) || !rules.keyValid(g.subject)
       || !StringsValid(rules, g.scopes) || !AudiencesValid(rules, g.audiences)
       || (createdAt.Some? && !SafeTime(createdAt.value))
       || (g.notBefore.Some? && !SafeTime(g.notBefore.value)) || (g.expiresAt.Some? && !SafeTime(g.expiresAt.value))
    then Some(InvalidPayload)
    else if g.expiresAt.Some? && g.notBefore.Some? && g.expiresAt.value <= g.notBefore.value then Some(GrantExpired)
    else if g.expiresAt.Some? && createdAt.Some? && g.expiresAt.value <= createdAt.value then Some(GrantExpired)
    else None
  }

  function PayloadRefusal(rules: Rules, e: Event): Option<Error> {
    match (e.kind, e.payload)
    case (GrantType, Grant(g)) => GrantRefusal(rules, g, Some(e.createdAt))
    case (RevokeType, Revoke(id, principalId, _)) =>
      if rules.idValid(id) && rules.urlValid(principalId) then None else Some(InvalidPayload)
    case _ => Some(InvalidPayload)
  }

  function EnvelopeRefusal(rules: Rules, env: Envelope): Option<Error> {
    if !rules.signed(env) || env.event.protocol != PROTOCOL then Some(InvalidEnvelope)
    else PayloadRefusal(rules, env.event)
  }

  function Identity(e: Event): (string, string) {
    match e.payload
    case Grant(g) => (g.id, g.principalId)
    case Revoke(id, principalId, _) => (id, principalId)
  }

  /** A credential's id, principal, subject and protocol never change, and a revocation needs one to revoke. */
  function PreviousRefusal(rules: Rules, e: Event, previous: Option<Credential>): Option<Error> {
    if previous.None? then
      if e.kind == RevokeType then Some(CredentialNotFound) else None
    else
      var p := previous.value;
      if !StringsValid(rules, p.grant.scopes) || !StringsValid(rules, p.grant.audiences) || !SafeTime(p.acceptedAt)
      then Some(InvalidPayload)
      else if (p.grant.id, p.grant.principalId) != Identity(e) || p.protocol != PROTOCOL
              || (e.payload.Grant? && e.payload.grant.subject != p.grant.subject)
      then Some(IdentityMismatch)
      else None
  }

  function Materialized(rules: Rules, env: Envelope, status: Status, acceptedAt: int, previous: Option<Credential>)
    : Result<Credential, Error>
  {
    var refusal := EnvelopeRefusal(rules, env);
    if refusal.Some? then Err(refusal.value)
    else if !SafeTime(acceptedAt) then Err(InvalidPayload)
    else
      var mismatch := PreviousRefusal(rules, env.event, previous);
      if mismatch.Some? then Err(mismatch.value)
      else if previous.Some? && acceptedAt < previous.value.acceptedAt then Err(InvalidPayload)
      else
        match env.event.payload
        case Revoke(_, _, _) =>
          if previous.None? then Err(CredentialNotFound)
          else
            Ok(previous.value.(controller := env.event.actor, status := Revoked, eventId := env.hash,
                               acceptedAt := acceptedAt, checkedAt := acceptedAt))
        case Grant(g) =>
          if g.expiresAt.Some? && g.expiresAt.value <= acceptedAt then Err(GrantExpired)
          else Ok(Credential(g, PROTOCOL, status, env.event.actor, env.hash, env.hash, acceptedAt, acceptedAt))
  }

  // ---- Authority ----------------------------------------------------------

  predicate WithinCeiling(c: Controller, scopes: seq<string>, audiences: seq<string>) {
    match c.delegation
    case None => false
    case Some(Unrestricted(token)) => token == "*"
    case Some(Restricted(policy)) =>
      (forall s | s in scopes :: s in policy.scopes) && (forall a | a in audiences :: a in policy.audiences)
  }

  function FirstById(controllers: seq<Controller>, id: string): Option<Controller> {
    if controllers == [] then None
    else if controllers[0].id == id then Some(controllers[0])
    else FirstById(controllers[1..], id)
  }

  /** The controller a key stands for: current ones, and for history also retired ones. */
  function ControllerOf(d: PrincipalDocument, actor: string, historical: bool): Option<Controller> {
    FirstById(if historical then d.controllers + d.retired else d.controllers, actor)
  }

  predicate InAuthority(c: Controller, time: int) {
    && c.validFrom <= time
    && (c.retiredAt.Some? ==> time < c.retiredAt.value)
    && (c.invalidFrom.Some? ==> time < c.invalidFrom.value)
  }

  /** What this controller may not do with this event, after the previous state. */
  function ControllerRefusal(
    rules: Rules, c: Controller, e: Event, acceptedAt: int, previous: Option<Credential>): Option<Error>
  {
    if c.delegation.None? then Some(DelegationNotPermitted)
    else if !InAuthority(c, e.createdAt) || !InAuthority(c, acceptedAt) then Some(ControllerNotCurrent)
    else
      var mismatch := PreviousRefusal(rules, e, previous);
      if mismatch.Some? then mismatch
      else if previous.Some? && acceptedAt < previous.value.acceptedAt then Some(InvalidPayload)
      else if previous.Some? && !WithinCeiling(c, previous.value.grant.scopes, previous.value.grant.audiences)
      then Some(CeilingExceeded)
      else if e.payload.Grant? && e.payload.grant.expiresAt.Some? && e.payload.grant.expiresAt.value <= acceptedAt
      then Some(GrantExpired)
      else if e.payload.Grant? && !WithinCeiling(c, e.payload.grant.scopes, e.payload.grant.audiences)
      then Some(CeilingExceeded)
      else None
  }

  function AuthorityRefusal(
    rules: Rules, e: Event, d: PrincipalDocument, acceptedAt: int, previous: Option<Credential>, historical: bool)
    : Option<Error>
  {
    if !DocumentValid(rules, d) || !SafeTime(acceptedAt) || !SafeTime(e.createdAt) || !rules.keyValid(e.actor)
        || e.protocol != PROTOCOL
    then Some(InvalidPayload)
    else if PayloadRefusal(rules, e).Some? then PayloadRefusal(rules, e)
    else if Identity(e).1 != d.id then Some(PrincipalNotCanonical)
    else
      var c := ControllerOf(d, e.actor, historical);
      if c.None? then Some(ControllerNotCurrent)
      else ControllerRefusal(rules, c.value, e, acceptedAt, previous)
  }

  function HistoryRefusal(
    rules: Rules, r: Record, d: PrincipalDocument, url: string, previous: Option<Credential>): Option<Error>
  {
    var refusal := EnvelopeRefusal(rules, r.envelope);
    if refusal.Some? then refusal
    else if d.id != url then Some(InvalidPayload)
    else AuthorityRefusal(rules, r.envelope.event, d, r.acceptedAt, previous, true)
  }

  // ---- The auditor --------------------------------------------------------

  /** Replaying a history: each record authorised under the state before it, and then applied. */
  function Replayed(
    rules: Rules, records: seq<Record>, d: PrincipalDocument, url: string): Result<Option<Credential>, Error>
  {
    if records == [] then Ok(None)
    else
      var before := Replayed(rules, records[..|records| - 1], d, url);
      if before.Err? then before
      else
        var last := records[|records| - 1];
        var refusal := HistoryRefusal(rules, last, d, url, before.value);
        if refusal.Some? then Err(refusal.value)
        else
          var next := Materialized(rules, last.envelope, Active, last.acceptedAt, before.value);
          if next.Err? then Err(next.error) else Ok(Some(next.value))
  }

  /** Everything but the status and its service timestamps, and whether it is revoked, comes from the events. */
  predicate Reflects(rules: Rules, c: Credential, r: Credential) {
    && rules.canonical(r.grant) == rules.canonical(c.grant) && r.protocol == c.protocol
    && r.acceptedAt == c.acceptedAt && r.eventId == c.eventId && r.grantEventId == c.grantEventId
    && r.controller == c.controller && (r.status == Revoked <==> c.status == Revoked)
  }

  predicate Audited(rules: Rules, c: Credential, records: seq<Record>, d: PrincipalDocument, url: string) {
    var replayed := Replayed(rules, records, d, url);
    records != [] && replayed.Ok? && replayed.value.Some? && Reflects(rules, c, replayed.value.value)
  }

  method AuditDelegationHistory(rules: Rules, c: Credential, records: seq<Record>, d: PrincipalDocument, url: string)
    returns (r: Result<(), Error>)
    ensures r.Ok? <==> Audited(rules, c, records, d, url)
  {
    if records == [] {
      return Err(InvalidPayload);
    }
    var replayed: Option<Credential> := None;
    for i := 0 to |records|
      invariant Replayed(rules, records[..i], d, url) == Ok(replayed)
      invariant i > 0 ==> replayed.Some?
    {
      assert records[..i + 1][..i] == records[..i];
      var refusal := HistoryRefusal(rules, records[i], d, url, replayed);
      if refusal.Some? {
        ReplayStops(rules, records, d, url, i + 1);
        return Err(refusal.value);
      }
      var next := Materialized(rules, records[i].envelope, Active, records[i].acceptedAt, replayed);
      if next.Err? {
        ReplayStops(rules, records, d, url, i + 1);
        return Err(next.error);
      }
      replayed := Some(next.value);
    }
    assert records[..|records|] == records;
    if !Reflects(rules, c, replayed.value) {
      return Err(Mismatch);
    }
    r := Ok(());
  }

  lemma {:induction false} ReplayStops(rules: Rules, records: seq<Record>, d: PrincipalDocument, url: string, i: nat)
    requires i <= |records| && Replayed(rules, records[..i], d, url).Err?
    ensures Replayed(rules, records, d, url).Err?
    decreases |records| - i
  {
    if i == |records| {
      assert records[..i] == records;
    } else {
      assert records[..i + 1][..i] == records[..i];
      ReplayStops(rules, records, d, url, i + 1);
    }
  }

  // ---- The relying party --------------------------------------------------

  const MAX_STATUS_AGE_MS: int := 300_000
  const STATUS_CLOCK_SKEW_MS: int := 60_000

  predicate StatusFresh(c: Credential, now: int) {
    && SafeTime(now) && SafeTime(c.checkedAt) && SafeTime(c.acceptedAt)
    && c.acceptedAt <= c.checkedAt <= now + STATUS_CLOCK_SKEW_MS
    && now - c.checkedAt <= MAX_STATUS_AGE_MS
  }

  /** The first record with this hash. */
  function Position(records: seq<Record>, hash: string): (i: Option<nat>)
    ensures i.Some? ==> i.value < |records| && records[i.value].envelope.hash == hash
    ensures i.None? ==> forall j | 0 <= j < |records| :: records[j].envelope.hash != hash
  {
    if records == [] then None
    else if records[0].envelope.hash == hash then Some(0)
    else
      var i := Position(records[1..], hash);
      if i.Some? then Some(i.value + 1) else None
  }

  /** The latest grant is authorised on its own and agrees with the credential. */
  predicate LatestGrantMatches(rules: Rules, c: Credential, records: seq<Record>, d: PrincipalDocument, url: string) {
    var at := Position(records, c.grantEventId);
    at.Some? &&
    var r := records[at.value];
    && HistoryRefusal(rules, r, d, url, None).None?
    && r.envelope.event.payload.Grant? && c.protocol == PROTOCOL
    && rules.canonical(r.envelope.event.payload.grant) == rules.canonical(c.grant)
    && (if c.eventId == c.grantEventId then
          c.acceptedAt == r.acceptedAt && c.controller == r.envelope.event.actor && c.status != Revoked
        else c.status == Revoked)
  }

  /** A record of the same credential that came after the event the credential says is its last. */
  predicate ConflictsAt(c: Credential, records: seq<Record>, i: nat)
    requires i < |records|
  {
    var r, current := records[i], Position(records, c.eventId);
    && r.envelope.hash != c.eventId
    && Identity(r.envelope.event) == (c.grant.id, c.grant.principalId)
    && (r.acceptedAt > c.acceptedAt || (current.Some? && i > current.value))
  }

  predicate InWindow(c: Credential, now: int) {
    && (c.grant.notBefore.Some? ==> c.grant.notBefore.value <= now)
    && (c.grant.expiresAt.Some? ==> now < c.grant.expiresAt.value)
  }

  datatype Reason = Unverified | Stale | Conflict | NotActive | AudienceNotGranted | NotYetValid | PastExpiry

  datatype Verdict = Verdict(verified: bool, usable: bool, reasons: seq<Reason>)

  method VerifyDelegationCredential(
    rules: Rules, c: Credential, records: seq<Record>, d: PrincipalDocument, url: string, audience: string, now: int)
    returns (v: Verdict)
    ensures v.verified <==> LatestGrantMatches(rules, c, records, d, url)
    ensures v.usable <==> v.reasons == []
    ensures v.usable <==>
              && v.verified && StatusFresh(c, now)
              && (forall i | 0 <= i < |records| :: !ConflictsAt(c, records, i))
              && c.status == Active && audience in c.grant.audiences && InWindow(c, now)
    ensures Conflict in v.reasons <==> exists i | 0 <= i < |records| :: ConflictsAt(c, records, i)
  {
    var reasons: seq<Reason> := [];
    if !LatestGrantMatches(rules, c, records, d, url) {
      reasons := reasons + [Unverified];
    }
    var verified := reasons == [];
    if !StatusFresh(c, now) {
      reasons := reasons + [Stale];
    }
    var conflict := exists i | 0 <= i < |records| :: ConflictsAt(c, records, i);
    if conflict {
      reasons := reasons + [Conflict];
    }
    if c.status != Active {
      reasons := reasons + [NotActive];
    }
    if audience !in c.grant.audiences {
      reasons := reasons + [AudienceNotGranted];
    }
    if c.grant.notBefore.Some? && now < c.grant.notBefore.value {
      reasons := reasons + [NotYetValid];
    }
    if c.grant.expiresAt.Some? && now >= c.grant.expiresAt.value {
      reasons := reasons + [PastExpiry];
    }
    v := Verdict(verified, reasons == [], reasons);
  }
}
