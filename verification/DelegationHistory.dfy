/** What the delegation checks promise together: audits imply cheap checks, and retirement does not rewrite history. */
module DelegationHistory {
  import opened Common
  import opened Delegation

  ghost predicate DistinctHashes(records: seq<Record>) {
    forall i, j | 0 <= i < j < |records| :: records[i].envelope.hash != records[j].envelope.hash
  }

  // ---- A full audit implies the cheap check -------------------------------

  /** The record at `g` is the last grant, and everything after it revokes. */
  ghost predicate LastGrantAt(records: seq<Record>, g: nat) {
    g < |records| && records[g].envelope.event.payload.Grant?
    && forall i | g < i < |records| :: records[i].envelope.event.payload.Revoke?
  }

  /** What a replayed state says about the records it came from. */
  ghost predicate StateOf(
    rules: Rules, r: Credential, records: seq<Record>, d: PrincipalDocument, url: string, g: nat)
  {
    && records != [] && LastGrantAt(records, g)
    && HistoryRefusal(rules, records[g], d, url, None).None?
    && r.grant == records[g].envelope.event.payload.grant && r.protocol == PROTOCOL
    && r.grantEventId == records[g].envelope.hash
    && var last := records[|records| - 1];
       && r.eventId == last.envelope.hash && r.acceptedAt == last.acceptedAt
           && r.controller == last.envelope.event.actor
       && (r.status == Revoked <==> g < |records| - 1)
       && forall i | 0 <= i < |records| :: records[i].acceptedAt <= r.acceptedAt
  }

  /** Authority under the state before implies authority on its own, for a grant. */
  lemma GrantStandsAlone(rules: Rules, r: Record, d: PrincipalDocument, url: string, previous: Option<Credential>)
    requires HistoryRefusal(rules, r, d, url, previous).None? && r.envelope.event.payload.Grant?
    ensures HistoryRefusal(rules, r, d, url, None).None?
  {
  }

  lemma {:induction false} ReplayedState(
    rules: Rules, records: seq<Record>, d: PrincipalDocument, url: string) returns (g: nat)
    requires records != [] && Replayed(rules, records, d, url).Ok?
    ensures Replayed(rules, records, d, url).value.Some?
    ensures StateOf(rules, Replayed(rules, records, d, url).value.value, records, d, url, g)
    decreases |records|
  {
    hide HistoryRefusal, EnvelopeRefusal, PreviousRefusal;
    var n := |records| - 1;
    var last := records[n];
    var before := Replayed(rules, records[..n], d, url).value;
    assert forall i | 0 <= i < n :: records[..n][i] == records[i];
    if n == 0 {
      assert records[..0] == [];
      g := 0;
    } else {
      g := ReplayedState(rules, records[..n], d, url);
      if last.envelope.event.payload.Grant? {
        GrantStandsAlone(rules, last, d, url, before);
        g := n;
      }
    }
  }

  lemma {:induction false} PositionIsUnique(records: seq<Record>, i: nat)
    requires DistinctHashes(records) && i < |records|
    ensures Position(records, records[i].envelope.hash) == Some(i)
    decreases |records|
  {
  }

  /**
   * If the auditor's replay of a history succeeds, the relying party's check of its latest grant succeeds, it finds
   * no conflict, and the credential is usable exactly when its status, audience and times say so.
   */
  lemma AuditImpliesCheapCheck(
    rules: Rules, c: Credential, records: seq<Record>, d: PrincipalDocument, url: string)
    requires DistinctHashes(records) && Audited(rules, c, records, d, url)
    ensures LatestGrantMatches(rules, c, records, d, url)
    ensures forall i | 0 <= i < |records| :: !ConflictsAt(c, records, i)
  {
    hide HistoryRefusal;
    var r := Replayed(rules, records, d, url).value.value;
    var g := ReplayedState(rules, records, d, url);
    PositionIsUnique(records, g);
    PositionIsUnique(records, |records| - 1);
  }

  method AuditThenVerify(
    rules: Rules, c: Credential, records: seq<Record>, d: PrincipalDocument, url: string, audience: string, now: int)
    returns (audit: Result<(), Error>, v: Verdict)
    ensures DistinctHashes(records) && audit.Ok? ==>
              && v.verified && Conflict !in v.reasons
              && (v.usable <==>
                    && c.status == Active && audience in c.grant.audiences
                    && (c.grant.notBefore.Some? ==> c.grant.notBefore.value <= now)
                    && (c.grant.expiresAt.Some? ==> now < c.grant.expiresAt.value)
                    && 0 <= c.acceptedAt <= c.checkedAt <= MAX_SAFE && 0 <= now <= MAX_SAFE
                    && c.checkedAt - 60_000 <= now <= c.checkedAt + 300_000)
  {
    audit := AuditDelegationHistory(rules, c, records, d, url);
    v := VerifyDelegationCredential(rules, c, records, d, url, audience, now);
    if DistinctHashes(records) && audit.Ok? {
      AuditImpliesCheapCheck(rules, c, records, d, url);
    }
  }

  // ---- Live and historical authority --------------------------------------

  lemma {:induction false} FirstByIdIs(controllers: seq<Controller>, c: Controller)
    requires DistinctKeys(controllers) && c in controllers
    ensures FirstById(controllers, c.id) == Some(c)
    decreases |controllers|
  {
    if controllers[0] != c {
      var i :| 0 <= i < |controllers| && controllers[i] == c;
      assert controllers[1..][i - 1] == c;
      FirstByIdIs(controllers[1..], c);
    }
  }

  lemma {:induction false} FirstByIdFinds(controllers: seq<Controller>, id: string)
    ensures var c := FirstById(controllers, id);
      if c.Some? then c.value in controllers && c.value.id == id else forall x | x in controllers :: x.id != id
  {
    if controllers != [] {
      FirstByIdFinds(controllers[1..], id);
      assert forall x | x in controllers :: x == controllers[0] || x in controllers[1..];
    }
  }

  /**
   * What authority is: some controller on the document's lists holds the key, may delegate, was in authority when
   * the event was made and when it was accepted, and covers both what it replaces and what it grants.
   */
  lemma AuthorisedIff(
    rules: Rules, e: Event, d: PrincipalDocument, acceptedAt: int, previous: Option<Credential>, historical: bool)
    ensures AuthorityRefusal(rules, e, d, acceptedAt, previous, historical).None? <==>
              && DocumentValid(rules, d) && SafeTime(acceptedAt) && SafeTime(e.createdAt) && rules.keyValid(e.actor)
              && e.protocol == PROTOCOL && PayloadRefusal(rules, e).None? && Identity(e).1 == d.id
              && PreviousRefusal(rules, e, previous).None?
              && (previous.Some? ==> previous.value.acceptedAt <= acceptedAt)
              && (e.payload.Grant? && e.payload.grant.expiresAt.Some? ==> acceptedAt < e.payload.grant.expiresAt.value)
              && exists c: Controller :: Empowers(c, e, d, acceptedAt, previous, historical)
  {
    hide DocumentValid, PayloadRefusal, PreviousRefusal, WithinCeiling, FirstById;
    var all := if historical then d.controllers + d.retired else d.controllers;
    FirstByIdFinds(all, e.actor);
    if exists c: Controller :: Empowers(c, e, d, acceptedAt, previous, historical) {
      var c: Controller :| Empowers(c, e, d, acceptedAt, previous, historical);
      if DocumentValid(rules, d) {
        KeysAreDistinct(rules, d, historical);
        FirstByIdIs(all, c);
      }
    }
    var found := FirstById(all, e.actor);
    if AuthorityRefusal(rules, e, d, acceptedAt, previous, historical).None? {
      assert Empowers(found.value, e, d, acceptedAt, previous, historical);
    }
  }

  predicate Empowers(
    c: Controller, e: Event, d: PrincipalDocument, acceptedAt: int, previous: Option<Credential>, historical: bool)
  {
    && c.id == e.actor && (c in d.controllers || (historical && c in d.retired)) && c.delegation.Some?
    && InAuthority(c, e.createdAt) && InAuthority(c, acceptedAt)
    && (previous.Some? ==> WithinCeiling(c, previous.value.grant.scopes, previous.value.grant.audiences))
    && (e.payload.Grant? ==> WithinCeiling(c, e.payload.grant.scopes, e.payload.grant.audiences))
  }

  lemma KeysAreDistinct(rules: Rules, d: PrincipalDocument, historical: bool)
    requires DocumentValid(rules, d)
    ensures DistinctKeys(if historical then d.controllers + d.retired else d.controllers)
  {
    assert DistinctKeys(d.controllers + d.retired);
    assert forall i | 0 <= i < |d.controllers| :: (d.controllers + d.retired)[i] == d.controllers[i];
  }

  /** What a service accepts live, an auditor accepts later under the same document. */
  lemma LiveImpliesHistorical(
    rules: Rules, e: Event, d: PrincipalDocument, acceptedAt: int, previous: Option<Credential>)
    requires AuthorityRefusal(rules, e, d, acceptedAt, previous, false).None?
    ensures AuthorityRefusal(rules, e, d, acceptedAt, previous, true).None?
  {
    hide PayloadRefusal, ControllerRefusal;
    FirstByIdFinds(d.controllers, e.actor);
    FirstByIdIs(d.controllers + d.retired, FirstById(d.controllers, e.actor).value);
  }

  // ---- Retirement ---------------------------------------------------------

  /** `later` is `d` with the controller at `i` moved to the retired list, keeping its id, start and policy. */
  ghost predicate Retires(
    d: PrincipalDocument, later: PrincipalDocument, i: nat, retiredAt: int, invalidFrom: Option<int>)
  {
    && i < |d.controllers|
    && later.id == d.id
    && later.controllers == d.controllers[..i] + d.controllers[i + 1..]
    && later.retired == d.retired + [d.controllers[i].(retiredAt := Some(retiredAt), invalidFrom := invalidFrom)]
  }

  /** Both times of an event fall before the retirement, and before the compromise if one is declared. */
  predicate Precedes(e: Event, acceptedAt: int, retiredAt: int, invalidFrom: Option<int>) {
    && e.createdAt < retiredAt && acceptedAt < retiredAt
    && (invalidFrom.Some? ==> e.createdAt < invalidFrom.value && acceptedAt < invalidFrom.value)
  }

  lemma OthersKeepTheirPlace(
    rules: Rules, d: PrincipalDocument, later: PrincipalDocument, i: nat, retiredAt: int, invalidFrom: Option<int>,
    id: string)
    requires DocumentValid(rules, d) && DocumentValid(rules, later) && Retires(d, later, i, retiredAt, invalidFrom)
    ensures ControllerOf(later, id, true) ==
              if id == d.controllers[i].id
              then Some(d.controllers[i].(retiredAt := Some(retiredAt), invalidFrom := invalidFrom))
              else ControllerOf(d, id, true)
  {
    var before, after := d.controllers + d.retired, later.controllers + later.retired;
    var c := d.controllers[i];
    var c' := c.(retiredAt := Some(retiredAt), invalidFrom := invalidFrom);
    hide ControllerValid;
    assert later.retired[|d.retired|] == c' && after[|later.controllers| + |d.retired|] == c';
    if id == c.id {
      FirstByIdIs(after, c');
    } else {
      FirstByIdFinds(before, id);
      FirstByIdFinds(after, id);
      forall x: Controller | x.id == id
        ensures x in before <==> x in after
      {
        SameMembers(d, later, i, retiredAt, invalidFrom, x);
      }
      if FirstById(before, id).Some? {
        FirstByIdIs(after, FirstById(before, id).value);
      }
    }
  }

  lemma SameMembers(
    d: PrincipalDocument, later: PrincipalDocument, i: nat, retiredAt: int, invalidFrom: Option<int>, x: Controller)
    requires Retires(d, later, i, retiredAt, invalidFrom) && x.id != d.controllers[i].id
    ensures x in d.controllers + d.retired <==> x in later.controllers + later.retired
  {
  }

  lemma RetiredController(
    rules: Rules, c: Controller, e: Event, acceptedAt: int, previous: Option<Credential>, retiredAt: int,
    invalidFrom: Option<int>)
    requires c.retiredAt.None? && c.invalidFrom.None?
    ensures var c' := c.(retiredAt := Some(retiredAt), invalidFrom := invalidFrom);
      ControllerRefusal(rules, c', e, acceptedAt, previous).None? <==>
        ControllerRefusal(rules, c, e, acceptedAt, previous).None? && Precedes(e, acceptedAt, retiredAt, invalidFrom)
  {
  }

  /**
   * Moving a key to the retired list leaves authorised exactly what was authorised before and precedes the
   * retirement, and does not touch what any other key did.
   */
  lemma RetirementKeepsHistory(
    rules: Rules, e: Event, d: PrincipalDocument, later: PrincipalDocument, acceptedAt: int,
    previous: Option<Credential>,
    i: nat, retiredAt: int, invalidFrom: Option<int>)
    requires DocumentValid(rules, d) && DocumentValid(rules, later) && Retires(d, later, i, retiredAt, invalidFrom)
    ensures AuthorityRefusal(rules, e, later, acceptedAt, previous, true).None? <==>
              && AuthorityRefusal(rules, e, d, acceptedAt, previous, true).None?
              && (e.actor == d.controllers[i].id ==> Precedes(e, acceptedAt, retiredAt, invalidFrom))
  {
    hide DocumentValid, PayloadRefusal, ControllerRefusal, Precedes, ControllerOf;
    OthersKeepTheirPlace(rules, d, later, i, retiredAt, invalidFrom, e.actor);
    CurrentController(rules, d, i);
    RetiredController(rules, d.controllers[i], e, acceptedAt, previous, retiredAt, invalidFrom);
  }

  lemma CurrentController(rules: Rules, d: PrincipalDocument, i: nat)
    requires DocumentValid(rules, d) && i < |d.controllers|
    ensures ControllerOf(d, d.controllers[i].id, true) == Some(d.controllers[i])
    ensures d.controllers[i].retiredAt.None? && d.controllers[i].invalidFrom.None?
  {
    var c := d.controllers[i];
    assert c in d.controllers && (d.controllers + d.retired)[i] == c;
    FirstByIdIs(d.controllers + d.retired, c);
  }

  lemma RetirementKeepsRecord(
    rules: Rules, r: Record, d: PrincipalDocument, later: PrincipalDocument, url: string, previous: Option<Credential>,
    i: nat, retiredAt: int, invalidFrom: Option<int>)
    requires DocumentValid(rules, d) && DocumentValid(rules, later) && Retires(d, later, i, retiredAt, invalidFrom)
    ensures HistoryRefusal(rules, r, later, url, previous).None? <==>
              && HistoryRefusal(rules, r, d, url, previous).None?
              && (r.envelope.event.actor == d.controllers[i].id ==>
                    Precedes(r.envelope.event, r.acceptedAt, retiredAt, invalidFrom))
  {
    RetirementKeepsHistory(rules, r.envelope.event, d, later, r.acceptedAt, previous, i, retiredAt, invalidFrom);
    hide DocumentValid, EnvelopeRefusal, AuthorityRefusal;
  }

  ghost predicate AllPrecede(records: seq<Record>, key: string, retiredAt: int, invalidFrom: Option<int>) {
    forall j | 0 <= j < |records| && records[j].envelope.event.actor == key ::
      Precedes(records[j].envelope.event, records[j].acceptedAt, retiredAt, invalidFrom)
  }

  lemma {:induction false} ReplayUnderRetirement(
    rules: Rules, records: seq<Record>, d: PrincipalDocument, later: PrincipalDocument, url: string,
    i: nat, retiredAt: int, invalidFrom: Option<int>)
    requires DocumentValid(rules, d) && DocumentValid(rules, later) && Retires(d, later, i, retiredAt, invalidFrom)
    ensures Replayed(rules, records, later, url).Ok? <==>
              Replayed(rules, records, d, url).Ok? && AllPrecede(records, d.controllers[i].id, retiredAt, invalidFrom)
    ensures Replayed(rules, records, later, url).Ok? ==>
              Replayed(rules, records, later, url) == Replayed(rules, records, d, url)
    decreases |records|
  {
    hide DocumentValid, HistoryRefusal, Materialized, Precedes;
    if records != [] {
      var n := |records| - 1;
      ReplayUnderRetirement(rules, records[..n], d, later, url, i, retiredAt, invalidFrom);
      assert forall j | 0 <= j < n :: records[..n][j] == records[j];
      if Replayed(rules, records[..n], d, url).Ok? {
        RetirementKeepsRecord(rules, records[n], d, later, url, Replayed(rules, records[..n], d, url).value, i,
            retiredAt, invalidFrom);
      }
    }
  }

  /** A whole history audits under the later document exactly when it did before and all of that key precedes. */
  lemma AuditUnderRetirement(
    rules: Rules, c: Credential, records: seq<Record>, d: PrincipalDocument, later: PrincipalDocument, url: string,
    i: nat, retiredAt: int, invalidFrom: Option<int>)
    requires DocumentValid(rules, d) && DocumentValid(rules, later) && Retires(d, later, i, retiredAt, invalidFrom)
    ensures Audited(rules, c, records, later, url) <==>
              Audited(rules, c, records, d, url) && AllPrecede(records, d.controllers[i].id, retiredAt, invalidFrom)
  {
    hide DocumentValid, Replayed, Reflects, AllPrecede;
    ReplayUnderRetirement(rules, records, d, later, url, i, retiredAt, invalidFrom);
  }
}
