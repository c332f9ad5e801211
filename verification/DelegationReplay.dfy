/** What a replayed delegation history is, record by record and without the state that the replay carries along. */
module DelegationReplay {
  import opened Common
  import opened Delegation
  import opened DelegationHistory

  /** No value is blank, a wildcard, or listed twice, and there is one. */
  ghost predicate Listed(rules: Rules, values: seq<string>) {
    && |values| > 0 && (forall v | v in values :: !rules.blank(v) && v != "*")
    && forall i, j | 0 <= i < |values| && 0 <= j < |values| && values[i] == values[j] :: i == j
  }

  ghost predicate GrantSound(rules: Rules, g: GrantPayload, createdAt: int, acceptedAt: int) {
    && rules.idValid(g.id) && rules.urlValid(g.principalId) && rules.keyValid(g.subject)
    && Listed(rules, g.scopes) && Listed(rules, g.audiences) && (forall a | a in g.audiences :: rules.audienceValid(a))
    && (g.notBefore.Some? ==> SafeTime(g.notBefore.value))
    && (g.expiresAt.Some? ==>
          && SafeTime(g.expiresAt.value) && createdAt < g.expiresAt.value && acceptedAt < g.expiresAt.value
          && (g.notBefore.Some? ==> g.notBefore.value < g.expiresAt.value))
  }

  /** The key's place on the document's lists, and its whole time of authority around both times of the event. */
  ghost predicate Authorises(c: Controller, e: Event, acceptedAt: int, d: PrincipalDocument, historical: bool) {
    && c.id == e.actor && (c in d.controllers || (historical && c in d.retired))
    && c.validFrom <= e.createdAt && c.validFrom <= acceptedAt
    && (c.retiredAt.Some? ==> e.createdAt < c.retiredAt.value && acceptedAt < c.retiredAt.value)
    && (c.invalidFrom.Some? ==> e.createdAt < c.invalidFrom.value && acceptedAt < c.invalidFrom.value)
  }

  ghost function Elements(values: seq<string>): set<string> {
    set v | v in values
  }

  /** Whether this controller may delegate all of this grant. */
  ghost predicate Covers(c: Controller, g: GrantPayload) {
    && c.delegation.Some?
    && (c.delegation.value.Restricted? ==>
          && Elements(g.scopes) <= Elements(c.delegation.value.policy.scopes)
          && Elements(g.audiences) <= Elements(c.delegation.value.policy.audiences))
  }

  /** An event on its own: well-formed, and of this principal. */
  ghost predicate EventSound(rules: Rules, e: Event, d: PrincipalDocument, acceptedAt: int) {
    && e.protocol == PROTOCOL && rules.keyValid(e.actor) && SafeTime(e.createdAt) && SafeTime(acceptedAt)
    && DocumentValid(rules, d)
    && match e.payload
       case Grant(g) => e.kind == GrantType && GrantSound(rules, g, e.createdAt, acceptedAt) && g.principalId == d.id
       case Revoke(id, principalId, _) =>
         e.kind == RevokeType && rules.idValid(id) && rules.urlValid(principalId) && principalId == d.id
  }

  /** The record names the credential and the agent of this grant. */
  ghost predicate Names(p: Payload, g: GrantPayload) {
    match p
    case Grant(h) => h.id == g.id && h.principalId == g.principalId && h.subject == g.subject
    case Revoke(id, principalId, _) => id == g.id && principalId == g.principalId
  }

  /** Some listed controller was in authority and may delegate both what is replaced and what is granted. */
  ghost predicate HasController(
    e: Event, d: PrincipalDocument, acceptedAt: int, previous: Option<GrantPayload>, historical: bool)
  {
    exists c: Controller ::
      && Authorises(c, e, acceptedAt, d, historical) && c.delegation.Some?
      && (previous.Some? ==> Covers(c, previous.value)) && (e.payload.Grant? ==> Covers(c, e.payload.grant))
  }

  /** What an event needs when `previous` is the grant it follows: the same credential, and cover for both. */
  ghost predicate Follows(
    rules: Rules, e: Event, d: PrincipalDocument, acceptedAt: int, previous: Option<GrantPayload>, historical: bool)
  {
    && EventSound(rules, e, d, acceptedAt)
    && (if previous.Some? then Names(e.payload, previous.value) else e.payload.Grant?)
    && HasController(e, d, acceptedAt, previous, historical)
  }

  /** What a record of a history needs: a signature, the document of its principal, and what its event needs. */
  ghost predicate Stands(rules: Rules, r: Record, d: PrincipalDocument, url: string, previous: Option<GrantPayload>) {
    rules.signed(r.envelope) && d.id == url && Follows(rules, r.envelope.event, d, r.acceptedAt, previous, true)
  }

  lemma ListedIff(rules: Rules, values: seq<string>)
    ensures StringsValid(rules, values) <==> Listed(rules, values)
  {
    assert forall i | 0 <= i < |values| :: values[i] in values;
  }

  lemma GrantSoundIff(rules: Rules, g: GrantPayload, createdAt: int, acceptedAt: int)
    requires SafeTime(createdAt)
    ensures GrantSound(rules, g, createdAt, acceptedAt) <==>
              && GrantRefusal(rules, g, Some(createdAt)).None?
              && (g.expiresAt.Some? ==> acceptedAt < g.expiresAt.value)
  {
    hide Listed, StringsValid;
    ListedIff(rules, g.scopes);
    ListedIff(rules, g.audiences);
    assert forall i | 0 <= i < |g.audiences| :: g.audiences[i] in g.audiences;
  }

  lemma EventSoundIff(rules: Rules, e: Event, d: PrincipalDocument, acceptedAt: int)
    ensures EventSound(rules, e, d, acceptedAt) <==>
              && e.protocol == PROTOCOL && PayloadRefusal(rules, e).None? && DocumentValid(rules, d)
              && SafeTime(acceptedAt) && SafeTime(e.createdAt) && rules.keyValid(e.actor) && Identity(e).1 == d.id
              && (e.payload.Grant? && e.payload.grant.expiresAt.Some? ==> acceptedAt < e.payload.grant.expiresAt.value)
  {
    hide DocumentValid, GrantSound, GrantRefusal;
    if e.payload.Grant? && SafeTime(e.createdAt) {
      GrantSoundIff(rules, e.payload.grant, e.createdAt, acceptedAt);
    }
  }

  lemma CoversIff(rules: Rules, d: PrincipalDocument, c: Controller, g: GrantPayload)
    requires DocumentValid(rules, d) && (c in d.controllers || c in d.retired)
    ensures Covers(c, g) <==> WithinCeiling(c, g.scopes, g.audiences)
  {
    var all := d.controllers + d.retired;
    assert ControllerValid(rules, c, c !in d.controllers);
    if WithinCeiling(c, g.scopes, g.audiences) && c.delegation.value.Restricted? {
      assert forall s | s in Elements(g.scopes) :: s in g.scopes;
    }
    if Covers(c, g) && c.delegation.value.Restricted? {
      assert forall s | s in g.scopes :: s in Elements(g.scopes);
      assert forall a | a in g.audiences :: a in Elements(g.audiences);
    }
  }

  lemma EmpowersIff(
    rules: Rules, c: Controller, e: Event, d: PrincipalDocument, acceptedAt: int, previous: Option<Credential>,
    historical: bool)
    requires DocumentValid(rules, d)
    ensures Empowers(c, e, d, acceptedAt, previous, historical) <==>
              && Authorises(c, e, acceptedAt, d, historical) && c.delegation.Some?
              && (previous.Some? ==> Covers(c, previous.value.grant))
              && (e.payload.Grant? ==> Covers(c, e.payload.grant))
  {
    hide DocumentValid, Covers, WithinCeiling;
    if c in d.controllers || c in d.retired {
      if previous.Some? {
        CoversIff(rules, d, c, previous.value.grant);
      }
      if e.payload.Grant? {
        CoversIff(rules, d, c, e.payload.grant);
      }
    }
  }

  lemma HasControllerIff(
    rules: Rules, e: Event, d: PrincipalDocument, acceptedAt: int, previous: Option<Credential>, historical: bool)
    requires DocumentValid(rules, d)
    ensures HasController(e, d, acceptedAt, GrantOf(previous), historical) <==>
              exists c: Controller :: Empowers(c, e, d, acceptedAt, previous, historical)
  {
    hide DocumentValid, Covers, Authorises, Empowers;
    forall c: Controller
      ensures Empowers(c, e, d, acceptedAt, previous, historical) <==>
                && Authorises(c, e, acceptedAt, d, historical) && c.delegation.Some?
                && (previous.Some? ==> Covers(c, previous.value.grant))
                && (e.payload.Grant? ==> Covers(c, e.payload.grant))
    {
      EmpowersIff(rules, c, e, d, acceptedAt, previous, historical);
    }
  }

  /** What a state that an event may follow has to be. */
  ghost predicate StateSound(rules: Rules, p: Credential) {
    && Listed(rules, p.grant.scopes) && Listed(rules, p.grant.audiences)
    && SafeTime(p.acceptedAt) && p.protocol == PROTOCOL
  }

  lemma PreviousIff(rules: Rules, e: Event, previous: Option<Credential>)
    requires PayloadRefusal(rules, e).None?
    ensures PreviousRefusal(rules, e, previous).None? <==>
              if previous.Some? then StateSound(rules, previous.value) && Names(e.payload, previous.value.grant)
              else e.payload.Grant?
  {
    if previous.Some? {
      ListedIff(rules, previous.value.grant.scopes);
      ListedIff(rules, previous.value.grant.audiences);
    }
    hide StringsValid, Listed, GrantRefusal;
  }

  function GrantOf(previous: Option<Credential>): Option<GrantPayload> {
    if previous.Some? then Some(previous.value.grant) else None
  }

  /**
   * What a service accepts live, and an auditor later: a sound event after a sound state, of the same credential, that
   * comes no earlier and has a controller in authority for both.
   */
  lemma AuthorityIff(
    rules: Rules, e: Event, d: PrincipalDocument, acceptedAt: int, previous: Option<Credential>, historical: bool)
    ensures AuthorityRefusal(rules, e, d, acceptedAt, previous, historical).None? <==>
              && Follows(rules, e, d, acceptedAt, GrantOf(previous), historical)
              && (previous.Some? ==> StateSound(rules, previous.value) && previous.value.acceptedAt <= acceptedAt)
  {
    hide DocumentValid, StateSound, EventSound, PreviousRefusal, Names, HasController, Empowers, AuthorityRefusal,
        GrantRefusal;
    EventSoundIff(rules, e, d, acceptedAt);
    AuthorisedIff(rules, e, d, acceptedAt, previous, historical);
    if EventSound(rules, e, d, acceptedAt) {
      PreviousIff(rules, e, previous);
      HasControllerIff(rules, e, d, acceptedAt, previous, historical);
    }
  }

  /** One step of the replay, in terms of the grant and the time before it. */
  lemma StepIff(rules: Rules, r: Record, d: PrincipalDocument, url: string, previous: Option<Credential>)
    requires previous.Some? ==> StateSound(rules, previous.value)
    ensures HistoryRefusal(rules, r, d, url, previous).None? <==>
              && Stands(rules, r, d, url, GrantOf(previous))
              && (previous.Some? ==> previous.value.acceptedAt <= r.acceptedAt)
  {
    hide DocumentValid, StateSound, PreviousRefusal, Names, HasController, GrantRefusal, AuthorityRefusal, GrantSound;
    AuthorityIff(rules, r.envelope.event, d, r.acceptedAt, previous, true);
    EventSoundIff(rules, r.envelope.event, d, r.acceptedAt);
  }

  lemma AuthorisedMaterializes(rules: Rules, r: Record, d: PrincipalDocument, url: string, previous: Option<Credential>)
    requires HistoryRefusal(rules, r, d, url, previous).None?
    ensures Materialized(rules, r.envelope, Status.Active, r.acceptedAt, previous).Ok?
  {
    hide DocumentValid, EnvelopeRefusal, PreviousRefusal, GrantRefusal, Empowers;
    AuthorisedIff(rules, r.envelope.event, d, r.acceptedAt, previous, true);
    PreviousIff(rules, r.envelope.event, previous);
  }

  // ---- Whole histories ----------------------------------------------------

  /** The last grant among the first `n` records, if there is one. */
  function GrantBefore(records: seq<Record>, n: nat): Option<GrantPayload>
    requires n <= |records|
  {
    if n == 0 then None
    else if records[n - 1].envelope.event.payload.Grant? then Some(records[n - 1].envelope.event.payload.grant)
    else GrantBefore(records, n - 1)
  }

  /** The record at `i` stands after the last grant before it, and no earlier than the record before it. */
  ghost predicate StandsAt(rules: Rules, records: seq<Record>, i: nat, d: PrincipalDocument, url: string)
    requires i < |records|
  {
    && Stands(rules, records[i], d, url, GrantBefore(records, i))
    && (i > 0 ==> records[i - 1].acceptedAt <= records[i].acceptedAt)
  }

  lemma {:induction false} GrantBeforePrefix(records: seq<Record>, m: nat, n: nat)
    requires n <= m <= |records|
    ensures GrantBefore(records[..m], n) == GrantBefore(records, n)
  {
    if n > 0 {
      GrantBeforePrefix(records, m, n - 1);
    }
  }

  lemma PrefixStands(rules: Rules, records: seq<Record>, m: nat, i: nat, d: PrincipalDocument, url: string)
    requires i < m <= |records|
    ensures StandsAt(rules, records[..m], i, d, url) <==> StandsAt(rules, records, i, d, url)
  {
    hide Stands;
    GrantBeforePrefix(records, m, i);
  }

  ghost predicate AllStand(rules: Rules, records: seq<Record>, d: PrincipalDocument, url: string) {
    forall i | 0 <= i < |records| :: StandsAt(rules, records, i, d, url)
  }

  lemma AllStandSnoc(rules: Rules, records: seq<Record>, d: PrincipalDocument, url: string)
    requires records != []
    ensures var n := |records| - 1;
      AllStand(rules, records, d, url) <==> AllStand(rules, records[..n], d, url) && StandsAt(rules, records, n, d, url)
  {
    hide StandsAt;
    var n := |records| - 1;
    forall i | 0 <= i < n
      ensures StandsAt(rules, records[..n], i, d, url) <==> StandsAt(rules, records, i, d, url)
    {
      PrefixStands(rules, records, n, i, d, url);
    }
  }

  /** The state a replay has reached, read off the records. */
  ghost predicate Reached(rules: Rules, records: seq<Record>, state: Option<Credential>) {
    && GrantOf(state) == GrantBefore(records, |records|) && (state.None? <==> records == [])
    && (state.Some? ==>
          StateSound(rules, state.value) && state.value.acceptedAt == records[|records| - 1].acceptedAt)
  }

  lemma StepReaches(
    rules: Rules, records: seq<Record>, d: PrincipalDocument, url: string, before: Option<Credential>)
    requires records != [] && Reached(rules, records[..|records| - 1], before)
    requires HistoryRefusal(rules, records[|records| - 1], d, url, before).None?
    requires var last := records[|records| - 1];
      Materialized(rules, last.envelope, Status.Active, last.acceptedAt, before).Ok?
    ensures var last := records[|records| - 1];
      Reached(rules, records, Some(Materialized(rules, last.envelope, Status.Active, last.acceptedAt, before).value))
  {
    GrantBeforePrefix(records, |records| - 1, |records| - 1);
    var last := records[|records| - 1];
    if last.envelope.event.payload.Grant? {
      ListedIff(rules, last.envelope.event.payload.grant.scopes);
      ListedIff(rules, last.envelope.event.payload.grant.audiences);
    }
    hide AuthorityRefusal, PreviousRefusal, StringsValid, Listed;
  }

  lemma {:induction false} ReplayReaches(rules: Rules, records: seq<Record>, d: PrincipalDocument, url: string)
    ensures Replayed(rules, records, d, url).Ok? <==> AllStand(rules, records, d, url)
    ensures Replayed(rules, records, d, url).Ok? ==> Reached(rules, records, Replayed(rules, records, d, url).value)
    decreases |records|
  {
    hide HistoryRefusal, Materialized, Stands, Reached, StateSound, AllStand;
    if records == [] {
      EmptyHistory(rules, records, d, url);
    } else {
      var n := |records| - 1;
      ReplayReaches(rules, records[..n], d, url);
      AllStandSnoc(rules, records, d, url);
      if Replayed(rules, records[..n], d, url).Ok? {
        var before := Replayed(rules, records[..n], d, url).value;
        ReachedState(rules, records[..n], before);
        StepIff(rules, records[n], d, url, before);
        GrantBeforePrefix(records, n, n);
        if HistoryRefusal(rules, records[n], d, url, before).None? {
          AuthorisedMaterializes(rules, records[n], d, url, before);
          StepReaches(rules, records, d, url, before);
        }
      }
    }
  }

  lemma EmptyHistory(rules: Rules, records: seq<Record>, d: PrincipalDocument, url: string)
    requires records == []
    ensures AllStand(rules, records, d, url) && Reached(rules, records, None)
  {
  }

  lemma ReachedState(rules: Rules, records: seq<Record>, state: Option<Credential>)
    requires Reached(rules, records, state)
    ensures GrantOf(state) == GrantBefore(records, |records|) && (state.None? <==> records == [])
    ensures state.Some? ==>
              StateSound(rules, state.value) && state.value.acceptedAt == records[|records| - 1].acceptedAt
  {
  }

  /**
   * A history replays exactly when every record, taken by itself, is signed and well-formed, names the credential of
   * the last grant before it, comes no earlier than the record before it, and has a controller in authority that
   * covers both.
   */
  lemma ReplaysIff(rules: Rules, records: seq<Record>, d: PrincipalDocument, url: string)
    ensures Replayed(rules, records, d, url).Ok? <==> AllStand(rules, records, d, url)
  {
    hide AllStand, Reached;
    ReplayReaches(rules, records, d, url);
  }

  // ---- One credential -----------------------------------------------------

  /** Both events are of one credential: same id and principal, and the same agent wherever they name one. */
  ghost predicate SameCredential(p: Payload, q: Payload) {
    && (if p.Grant? then p.grant.id else p.id) == (if q.Grant? then q.grant.id else q.id)
    && (if p.Grant? then p.grant.principalId else p.principalId)
       == (if q.Grant? then q.grant.principalId else q.principalId)
    && (p.Grant? && q.Grant? ==> p.grant.subject == q.grant.subject)
  }

  lemma {:induction false} GrantBeforeIsFirst(
    rules: Rules, records: seq<Record>, d: PrincipalDocument, url: string, n: nat)
    requires AllStand(rules, records, d, url) && 0 < n <= |records|
    ensures records[0].envelope.event.payload.Grant? && GrantBefore(records, n).Some?
    ensures SameCredential(Grant(GrantBefore(records, n).value), records[0].envelope.event.payload)
  {
    hide EventSound, HasController;
    assert StandsAt(rules, records, n - 1, d, url);
    if n == 1 {
      assert GrantBefore(records, 0).None?;
    } else {
      GrantBeforeIsFirst(rules, records, d, url, n - 1);
    }
  }

  /**
   * A replayed history is of one credential: it opens with a grant, every record has the protocol, the id and the
   * principal of that grant and every grant its agent, and acceptance times do not fall.
   */
  lemma {:induction false} HistoryHasOneCredential(
    rules: Rules, records: seq<Record>, d: PrincipalDocument, url: string, i: nat, j: nat)
    requires Replayed(rules, records, d, url).Ok? && i <= j < |records|
    ensures var opening := records[0].envelope.event.payload;
      opening.Grant? && opening.grant.principalId == url == d.id
    ensures records[j].envelope.event.protocol == PROTOCOL
    ensures SameCredential(records[j].envelope.event.payload, records[0].envelope.event.payload)
    ensures records[i].acceptedAt <= records[j].acceptedAt
    decreases j
  {
    hide Replayed, HasController, GrantSound;
    ReplaysIff(rules, records, d, url);
    assert StandsAt(rules, records, j, d, url) && StandsAt(rules, records, 0, d, url);
    if j > 0 {
      GrantBeforeIsFirst(rules, records, d, url, j);
      assert SameCredential(records[j].envelope.event.payload, Grant(GrantBefore(records, j).value));
      HistoryHasOneCredential(rules, records, d, url, if i < j then i else 0, j - 1);
    }
  }

  /** Canonical JSON keeps everything a grant says. */
  ghost predicate CanonicalBinds(rules: Rules) {
    forall g: GrantPayload, h: GrantPayload | rules.canonical(g) == rules.canonical(h) :: g == h
  }

  /** An audited credential is the credential of every record of its history, and no grant ever named another agent. */
  lemma AuditedCredentialIsTheOne(
    rules: Rules, c: Credential, records: seq<Record>, d: PrincipalDocument, url: string, i: nat)
    requires CanonicalBinds(rules) && Audited(rules, c, records, d, url) && i < |records|
    ensures SameCredential(Grant(c.grant), records[i].envelope.event.payload)
    ensures c.grant.principalId == url
  {
    hide Replayed, StateOf;
    var g := ReplayedState(rules, records, d, url);
    StateNames(rules, Replayed(rules, records, d, url).value.value, records, d, url, g);
    HistoryHasOneCredential(rules, records, d, url, 0, g);
    HistoryHasOneCredential(rules, records, d, url, 0, i);
    assert rules.canonical(records[g].envelope.event.payload.grant) == rules.canonical(c.grant);
  }

  lemma StateNames(
    rules: Rules, r: Credential, records: seq<Record>, d: PrincipalDocument, url: string, g: nat)
    requires StateOf(rules, r, records, d, url, g)
    ensures LastGrantAt(records, g) && r.grant == records[g].envelope.event.payload.grant
  {
  }

  // ---- The audited credential ---------------------------------------------

  /** An audit passes exactly for the credential that the records themselves describe. */
  lemma AuditedIff(rules: Rules, c: Credential, records: seq<Record>, d: PrincipalDocument, url: string)
    ensures Audited(rules, c, records, d, url) <==>
              && records != [] && AllStand(rules, records, d, url)
              && c.protocol == PROTOCOL
              && var last := records[|records| - 1];
                 && c.eventId == last.envelope.hash && c.acceptedAt == last.acceptedAt
                 && c.controller == last.envelope.event.actor
                 && (c.status == Revoked <==> last.envelope.event.payload.Revoke?)
                 && exists g: nat ::
                      && LastGrantAt(records, g) && c.grantEventId == records[g].envelope.hash
                      && rules.canonical(c.grant) == rules.canonical(records[g].envelope.event.payload.grant)
  {
    ReplaysIff(rules, records, d, url);
    hide AllStand, Replayed;
    if records != [] && AllStand(rules, records, d, url) {
      var g := ReplayedState(rules, records, d, url);
      hide HistoryRefusal;
      forall h: nat | LastGrantAt(records, h)
        ensures h == g
      {
        LastGrantIsUnique(records, g, h);
      }
    }
  }

  lemma LastGrantIsUnique(records: seq<Record>, g: nat, h: nat)
    requires LastGrantAt(records, g) && LastGrantAt(records, h)
    ensures g == h
  {
  }

  /** The relying party's check: the grant that the credential names stands alone, and says what the credential does. */
  lemma VerifiedIff(rules: Rules, c: Credential, records: seq<Record>, d: PrincipalDocument, url: string)
    requires DistinctHashes(records)
    ensures LatestGrantMatches(rules, c, records, d, url) <==>
              exists i | 0 <= i < |records| ::
                && records[i].envelope.hash == c.grantEventId && records[i].envelope.event.payload.Grant?
                && Stands(rules, records[i], d, url, None)
                && c.protocol == PROTOCOL
                && rules.canonical(c.grant) == rules.canonical(records[i].envelope.event.payload.grant)
                && if c.grantEventId != c.eventId then c.status == Revoked
                   else
                     && c.status != Revoked && c.acceptedAt == records[i].acceptedAt
                     && c.controller == records[i].envelope.event.actor
  {
    hide HistoryRefusal, Stands;
    forall i | 0 <= i < |records|
      ensures Position(records, records[i].envelope.hash) == Some(i)
      ensures HistoryRefusal(rules, records[i], d, url, None).None? <==> Stands(rules, records[i], d, url, None)
    {
      PositionIsUnique(records, i);
      StepIff(rules, records[i], d, url, None);
    }
  }

  /** Once one more record of the credential is known, the audited state is out of date, and the check says so. */
  method VerifyAfterMore(
    rules: Rules, c: Credential, records: seq<Record>, more: Record, d: PrincipalDocument, url: string,
    audience: string, now: int)
    returns (audit: Result<(), Error>, v: Verdict)
    ensures audit.Ok? && DistinctHashes(records + [more])
            && SameCredential(more.envelope.event.payload, Grant(c.grant)) ==>
              Conflict in v.reasons && !v.usable
  {
    audit := AuditDelegationHistory(rules, c, records, d, url);
    v := VerifyDelegationCredential(rules, c, records + [more], d, url, audience, now);
    if audit.Ok? && DistinctHashes(records + [more]) && SameCredential(more.envelope.event.payload, Grant(c.grant)) {
      MoreConflicts(rules, c, records, more, d, url);
    }
  }

  lemma MoreConflicts(
    rules: Rules, c: Credential, records: seq<Record>, more: Record, d: PrincipalDocument, url: string)
    requires Audited(rules, c, records, d, url) && DistinctHashes(records + [more])
    requires SameCredential(more.envelope.event.payload, Grant(c.grant))
    ensures ConflictsAt(c, records + [more], |records|)
  {
    AuditedIff(rules, c, records, d, url);
    hide Audited, AllStand;
    var all := records + [more];
    assert all[|records| - 1] == records[|records| - 1] && all[|records|] == more;
    PositionIsUnique(all, |records| - 1);
  }

  /** A grant starts over with the status it is given; a revocation ends the grant it follows and keeps what it said. */
  lemma MaterializedIs(rules: Rules, env: Envelope, status: Status, acceptedAt: int, previous: Option<Credential>)
    requires Materialized(rules, env, status, acceptedAt, previous).Ok?
    ensures var c, e := Materialized(rules, env, status, acceptedAt, previous).value, env.event;
      && c.protocol == PROTOCOL && c.controller == e.actor && c.eventId == env.hash
      && c.acceptedAt == c.checkedAt == acceptedAt && SafeTime(acceptedAt)
      && (e.payload.Grant? ==> c.grant == e.payload.grant && c.grantEventId == env.hash && c.status == status)
      && (e.payload.Revoke? ==>
            && previous.Some? && c.grant == previous.value.grant && c.grantEventId == previous.value.grantEventId
            && c.status == Revoked)
      && (previous.Some? ==>
            previous.value.acceptedAt <= acceptedAt && Names(e.payload, previous.value.grant))
  {
    hide StringsValid, GrantRefusal;
    PreviousIff(rules, env.event, previous);
  }

  // ---- Documents ----------------------------------------------------------

  /** No value is blank, a wildcard, or given twice. */
  ghost predicate Plain(rules: Rules, values: seq<string>) {
    values == [] || Listed(rules, values)
  }

  ghost predicate AuthoritySound(rules: Rules, a: Authority) {
    match a
    case Unrestricted(token) => token == "*"
    case Restricted(policy) =>
      && Listed(rules, policy.scopes) && Listed(rules, policy.audiences)
      && forall x | x in policy.audiences :: rules.audienceValid(x)
  }

  /** A controller's dates in order: its start, its compromise, its retirement, and the document's last update. */
  ghost predicate ControllerSound(rules: Rules, c: Controller, retired: bool, updatedAt: int) {
    && rules.keyValid(c.id) && (c.source == "local" || rules.originValid(c.source))
    && (c.name.Some? ==> !rules.blank(c.name.value))
    && (c.delegation.Some? ==> AuthoritySound(rules, c.delegation.value))
    && (c.retiredAt.Some? <==> retired) && (c.invalidFrom.Some? ==> retired)
    && 0 <= c.validFrom <= c.invalidFrom.GetOr(c.validFrom) <= c.retiredAt.GetOr(updatedAt) <= updatedAt <= MAX_SAFE
  }

  lemma ControllerSoundIff(rules: Rules, c: Controller, retired: bool, updatedAt: int)
    requires SafeTime(updatedAt)
    ensures ControllerSound(rules, c, retired, updatedAt) <==>
              ControllerValid(rules, c, retired) && TimelyController(c, updatedAt)
  {
    if c.delegation.Some? && c.delegation.value.Restricted? {
      var policy := c.delegation.value.policy;
      ListedIff(rules, policy.scopes);
      ListedIff(rules, policy.audiences);
      assert forall i | 0 <= i < |policy.audiences| :: policy.audiences[i] in policy.audiences;
    }
    hide StringsValid, Listed;
  }

  /** A document is valid exactly when all this holds of it, whatever the order of its checks. */
  lemma DocumentIff(rules: Rules, d: PrincipalDocument)
    ensures DocumentValid(rules, d) <==>
              && rules.urlValid(d.id) && d.protocol == PROTOCOL && SafeTime(d.updatedAt)
              && (forall c | c in d.controllers :: ControllerSound(rules, c, false, d.updatedAt))
              && (forall c | c in d.retired :: ControllerSound(rules, c, true, d.updatedAt))
              && DistinctKeys(d.controllers + d.retired)
              && Plain(rules, d.aliases) && (forall a | a in d.aliases :: rules.urlValid(a))
              && (d.avatarUrl.Some? ==> rules.urlValid(d.avatarUrl.value))
              && (d.service.Some? ==> rules.originValid(d.service.value))
              && (d.service.None? ==> forall c | c in d.controllers || c in d.retired :: c.delegation.None?)
  {
    ListedIff(rules, d.aliases);
    hide ControllerValid, TimelyController, ControllerSound, Listed;
    if SafeTime(d.updatedAt) {
      forall c: Controller, retired: bool
        ensures ControllerSound(rules, c, retired, d.updatedAt) <==>
                  ControllerValid(rules, c, retired) && TimelyController(c, d.updatedAt)
      {
        ControllerSoundIff(rules, c, retired, d.updatedAt);
      }
      assert forall c :: c in d.controllers + d.retired <==> c in d.controllers || c in d.retired;
    }
  }

  /** At the time of its last update, exactly the current controllers of a valid document are in authority. */
  lemma AuthorityAtUpdate(rules: Rules, d: PrincipalDocument, c: Controller)
    requires DocumentValid(rules, d) && (c in d.controllers || c in d.retired)
    ensures InAuthority(c, d.updatedAt) <==> c in d.controllers
    ensures c in d.controllers <==> c.retiredAt.None?
  {
    var all := d.controllers + d.retired;
    assert c in all && ControllerValid(rules, c, c !in d.controllers) by {
      if c in d.controllers {
        assert ControllerValid(rules, c, false);
      } else {
        assert ControllerValid(rules, c, true);
      }
    }
    assert TimelyController(c, d.updatedAt);
    if c in d.controllers {
      assert ControllerValid(rules, c, false);
    }
  }

  /** A retired key was in authority from its start to its compromise, or to its retirement if none is declared. */
  lemma RetiredAuthority(rules: Rules, d: PrincipalDocument, c: Controller, time: int)
    requires DocumentValid(rules, d) && c in d.retired
    ensures c.retiredAt.Some?
    ensures InAuthority(c, time) <==> c.validFrom <= time < c.invalidFrom.GetOr(c.retiredAt.value)
    ensures c.validFrom <= c.invalidFrom.GetOr(c.retiredAt.value) <= c.retiredAt.value <= d.updatedAt
  {
    assert ControllerValid(rules, c, true) && c in d.controllers + d.retired;
    assert TimelyController(c, d.updatedAt);
  }

  /** A key stands for at most one controller, current or retired. */
  lemma KeysAreUnique(rules: Rules, d: PrincipalDocument, c: Controller, e: Controller)
    requires DocumentValid(rules, d) && c.id == e.id
    requires (c in d.controllers || c in d.retired) && (e in d.controllers || e in d.retired)
    ensures c == e
  {
    FirstByIdIs(d.controllers + d.retired, c);
    FirstByIdIs(d.controllers + d.retired, e);
  }

  /** Without a service of its own, a principal delegates nothing. */
  lemma NoServiceNoAuthority(
    rules: Rules, e: Event, d: PrincipalDocument, acceptedAt: int, previous: Option<Credential>, historical: bool)
    requires d.service.None?
    ensures AuthorityRefusal(rules, e, d, acceptedAt, previous, historical).Some?
  {
    hide PayloadRefusal, PreviousRefusal, ControllerValid, TimelyController;
    AuthorisedIff(rules, e, d, acceptedAt, previous, historical);
    assert forall c | c in d.controllers || c in d.retired :: c in d.controllers + d.retired;
  }
}
