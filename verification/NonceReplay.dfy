/**
 * Live-write replay protection: a nonce cache whose entries expire, guarded by a window on `created_at`.
 * The cache alone forgets and the window alone repeats; together they accept an envelope at most once exactly
 * when an entry lives at least twice as long as the window is wide.
 */
module NonceReplay {
  import opened Common

  type AgentId = string

  datatype NonceRecord = NonceRecord(maxNonce: nat, expiresAt: int)

  type Table = map<AgentId, NonceRecord>

  datatype Error = InvalidSignature | TimestampOutOfWindow | InvalidNonce | NonceNotGreater(maxNonce: nat)

  predicate NonceValid(nonce: nat) {
    1 <= nonce <= MAX_SAFE
  }

  /** Whether a cached maximum still refuses this nonce at this time. */
  predicate Blocked(table: Table, actor: AgentId, nonce: nat, now: int) {
    actor in table && table[actor].expiresAt >= now && nonce <= table[actor].maxNonce
  }

  function Updated(table: Table, actor: AgentId, nonce: nat, now: int, ttl: int): (Table, Result<nat, Error>) {
    if !NonceValid(nonce) || ttl < 0 then (table, Err(InvalidNonce))
    else if Blocked(table, actor, nonce, now) then (table, Err(NonceNotGreater(table[actor].maxNonce)))
    else (table[actor := NonceRecord(nonce, SaturatingAdd(now, ttl))], Ok(nonce))
  }

  class MemoryNonceStore {
    var records: Table

    constructor ()
      ensures records == map[]
    {
      records := map[];
    }

    method CheckAndUpdate(actor: AgentId, nonce: nat, now: int, ttl: int) returns (r: Result<nat, Error>)
      modifies this
      ensures (records, r) == Updated(old(records), actor, nonce, now, ttl)
    {
      if !NonceValid(nonce) {
        return Err(InvalidNonce);
      }
      if ttl < 0 {
        return Err(InvalidNonce);
      }
      if actor in records {
        var record := records[actor];
        if record.expiresAt >= now && nonce <= record.maxNonce {
          return Err(NonceNotGreater(record.maxNonce));
        }
      }
      var record := NonceRecord(nonce, SaturatingAdd(now, ttl));
      records := records[actor := record];
      r := Ok(record.maxNonce);
    }

    method MaxNonce(actor: AgentId, now: int) returns (r: Option<nat>)
      ensures r.Some? <==> Blocked(records, actor, 0, now)
      ensures forall nonce: nat :: Blocked(records, actor, nonce, now) <==> r.Some? && nonce <= r.value
    {
      if actor in records && records[actor].expiresAt >= now {
        r := Some(records[actor].maxNonce);
      } else {
        r := None;
      }
    }

    /** One submission: an exact resubmission is answered before the window and the cache are consulted. */
    method VerifySubmission(e: Envelope, now: int, window: int, ttl: int, isAccepted: Envelope -> bool)
      returns (r: Result<Outcome, Error>)
      modifies this
      ensures (records, r) == Verified(old(records), Submission(e, now, window, ttl, isAccepted(e)))
    {
      if !e.signed {
        return Err(InvalidSignature);
      }
      if isAccepted(e) {
        return Ok(Resubmission);
      }
      if !InWindow(e.createdAt, now, window) {
        return Err(TimestampOutOfWindow);
      }
      var checked := CheckAndUpdate(e.actor, e.nonce, now, ttl);
      r := if checked.Ok? then Ok(Accepted(checked.value)) else Err(checked.error);
    }
  }

  // ---- Submissions --------------------------------------------------------

  /** `signed` is the outcome of hash and signature verification, which is opaque here. */
  datatype Envelope = Envelope(hash: string, actor: AgentId, createdAt: int, nonce: nat, signed: bool)

  datatype Outcome = Resubmission | Accepted(maxNonce: nat)

  /** `known` is what the service's own lookup answers; nothing below depends on it being truthful. */
  datatype Submission = Submission(envelope: Envelope, now: int, window: int, ttl: int, known: bool)

  predicate InWindow(createdAt: int, now: int, window: int) {
    window >= 0 && (if createdAt >= now then createdAt - now else now - createdAt) <= window
  }

  function Verified(table: Table, s: Submission): (Table, Result<Outcome, Error>) {
    var e := s.envelope;
    if !e.signed then (table, Err(InvalidSignature))
    else if s.known then (table, Ok(Resubmission))
    else if !InWindow(e.createdAt, s.now, s.window) then (table, Err(TimestampOutOfWindow))
    else
      var (table', checked) := Updated(table, e.actor, e.nonce, s.now, s.ttl);
      (table', if checked.Ok? then Ok(Accepted(checked.value)) else Err(checked.error))
  }

  predicate Accepts(table: Table, s: Submission) {
    var r := Verified(table, s).1;
    r.Ok? && r.value.Accepted?
  }

  /** The cache after the first `n` submissions of a run. */
  function After(table: Table, run: seq<Submission>, n: nat): Table
    requires n <= |run|
  {
    if n == 0 then table else Verified(After(table, run, n - 1), run[n - 1]).0
  }

  predicate AcceptedAt(table: Table, run: seq<Submission>, i: nat)
    requires i < |run|
  {
    Accepts(After(table, run, i), run[i])
  }

  /** Times are `i64` and the service clock never steps back. */
  ghost predicate Clocked(run: seq<Submission>) {
    && (forall i | 0 <= i < |run| ::
          I64_MIN <= run[i].now <= I64_MAX && I64_MIN <= run[i].envelope.createdAt <= I64_MAX)
    && forall i, j | 0 <= i < j < |run| :: run[i].now <= run[j].now
  }

  /** No submission uses a window wider than `w`, and every cache entry outlives it twice over. */
  ghost predicate Configured(run: seq<Submission>, w: int) {
    forall i | 0 <= i < |run| :: run[i].window <= w && 2 * w <= run[i].ttl
  }

  /** Why `e` cannot be accepted again: its time is over, or a live entry covers its nonce until it is. */
  ghost predicate Barred(table: Table, e: Envelope, w: int, now: int) {
    && e.createdAt <= now + w
    && (|| e.createdAt + w < now
        || (e.actor in table && e.nonce <= table[e.actor].maxNonce
            && (e.createdAt + w <= table[e.actor].expiresAt || table[e.actor].expiresAt == I64_MAX)))
  }

  lemma AcceptanceBars(table: Table, s: Submission, w: int)
    requires Accepts(table, s) && s.window <= w && 2 * w <= s.ttl
    ensures Barred(Verified(table, s).0, s.envelope, w, s.now)
  {
  }

  lemma BarringLasts(table: Table, e: Envelope, w: int, before: int, s: Submission)
    requires Barred(table, e, w, before) && before <= s.now <= I64_MAX
    requires s.window <= w && 2 * w <= s.ttl
    ensures Barred(Verified(table, s).0, e, w, s.now)
    ensures s.envelope.actor == e.actor && s.envelope.nonce == e.nonce && s.envelope.createdAt == e.createdAt ==>
              !Accepts(table, s)
  {
  }

  lemma {:induction false} StaysBarred(table: Table, run: seq<Submission>, w: int, i: nat, j: nat)
    requires Clocked(run) && Configured(run, w) && i < j <= |run| && AcceptedAt(table, run, i)
    ensures Barred(After(table, run, j), run[i].envelope, w, run[j - 1].now)
  {
    if j == i + 1 {
      AcceptanceBars(After(table, run, i), run[i], w);
    } else {
      StaysBarred(table, run, w, i, j - 1);
      BarringLasts(After(table, run, j - 1), run[i].envelope, w, run[j - 2].now, run[j - 1]);
    }
  }

  /** In any run of any actors, whatever the resubmission lookup answers, no envelope is accepted twice. */
  lemma NoReplay(table: Table, run: seq<Submission>, w: int, i: nat, j: nat)
    requires Clocked(run) && Configured(run, w) && i < j < |run|
    requires run[i].envelope == run[j].envelope && AcceptedAt(table, run, i)
    ensures !AcceptedAt(table, run, j)
  {
    StaysBarred(table, run, w, i, j);
    BarringLasts(After(table, run, j), run[i].envelope, w, run[j - 1].now, run[j]);
  }

  // ---- What is accepted ---------------------------------------------------

  /** Everything a submission is checked for that its actor answers for alone. */
  predicate InOrder(s: Submission) {
    && s.envelope.signed && !s.known
    && 0 <= s.window && s.now - s.window <= s.envelope.createdAt <= s.now + s.window
    && 1 <= s.envelope.nonce <= MAX_SAFE && 0 <= s.ttl
  }

  /** A submission is accepted exactly when it is in order and no live entry of its actor covers its nonce. */
  lemma AcceptsIff(table: Table, s: Submission)
    ensures var actor := s.envelope.actor;
      Accepts(table, s) <==>
        && InOrder(s)
        && (actor !in table || table[actor].expiresAt < s.now || table[actor].maxNonce < s.envelope.nonce)
    ensures Verified(table, s).1 == Ok(Resubmission) <==> s.envelope.signed && s.known
    ensures forall max: nat :: Verified(table, s).1 == Err(NonceNotGreater(max)) <==>
              && InOrder(s) && s.envelope.actor in table
              && var entry := table[s.envelope.actor];
                 s.now <= entry.expiresAt && s.envelope.nonce <= entry.maxNonce == max
  {
  }

  /** An acceptance leaves its nonce in its actor's entry for the given lifetime; nothing else changes the cache. */
  lemma OnlyAcceptanceUpdates(table: Table, s: Submission, other: AgentId)
    requires I64_MIN <= s.now <= I64_MAX
    ensures var after, actor := Verified(table, s).0, s.envelope.actor;
      && (!Accepts(table, s) ==> after == table)
      && (Accepts(table, s) ==>
            && Verified(table, s).1 == Ok(Accepted(s.envelope.nonce))
            && actor in after && after[actor].maxNonce == s.envelope.nonce
            && after[actor].expiresAt == if s.now + s.ttl <= I64_MAX then s.now + s.ttl else I64_MAX)
      && (other != actor ==>
            && (other in after <==> other in table) && (other in table ==> after[other] == table[other]))
  {
  }

  /** An entry is the one the run began with, or holds the nonce of an earlier submission of its actor. */
  lemma {:induction false} EntryIsAnEarlierNonce(table: Table, run: seq<Submission>, actor: AgentId, n: nat)
    requires n <= |run| && actor in After(table, run, n)
    ensures (actor in table && After(table, run, n)[actor] == table[actor])
            || exists i | 0 <= i < n :: run[i].envelope.actor == actor
                 && run[i].envelope.nonce == After(table, run, n)[actor].maxNonce
  {
    if n > 0 {
      var before, s := After(table, run, n - 1), run[n - 1];
      if actor in before && After(table, run, n)[actor] == before[actor] {
        EntryIsAnEarlierNonce(table, run, actor, n - 1);
      } else {
        assert s.envelope.actor == actor && s.envelope.nonce == After(table, run, n)[actor].maxNonce;
      }
    }
  }

  /** What the actor submits is in order, with nonces that rise, from above the maximum the cache began with. */
  ghost predicate Rises(table: Table, run: seq<Submission>, actor: AgentId) {
    && (forall i | 0 <= i < |run| && run[i].envelope.actor == actor ::
          InOrder(run[i]) && (actor in table ==> table[actor].maxNonce < run[i].envelope.nonce))
    && forall i, j | 0 <= i < j < |run| && run[i].envelope.actor == actor && run[j].envelope.actor == actor ::
         run[i].envelope.nonce < run[j].envelope.nonce
  }

  /** An actor whose nonces rise is never refused, whatever the others submit and whatever the clock does. */
  lemma RisingNoncesAreAccepted(table: Table, run: seq<Submission>, actor: AgentId, k: nat)
    requires Rises(table, run, actor) && k < |run| && run[k].envelope.actor == actor
    ensures AcceptedAt(table, run, k)
  {
    hide After, Accepts;
    AcceptsIff(After(table, run, k), run[k]);
    if actor in After(table, run, k) {
      EntryIsAnEarlierNonce(table, run, actor, k);
    }
  }

  // ---- The bound is tight -------------------------------------------------

  ghost predicate Uniform(run: seq<Submission>, w: int, ttl: int) {
    forall i | 0 <= i < |run| :: run[i].window == w && run[i].ttl == ttl
  }

  ghost predicate Replays(table: Table, run: seq<Submission>, i: nat, j: nat) {
    i < j < |run| && run[i].envelope == run[j].envelope && AcceptedAt(table, run, i) && AcceptedAt(table, run, j)
  }

  /** The clock reading a replaying run starts at: never negative, unless the lifetime is the largest there is. */
  function StartOf(w: int, ttl: int): int {
    if ttl < I64_MAX then 0 else -w
  }

  /** An envelope signed one window ahead of the clock: sent at once, and again one tick after its entry expires. */
  function EarlyRun(w: int, ttl: int, e: Envelope): seq<Submission> {
    var start := StartOf(w, ttl);
    [Submission(e, start, w, ttl, false), Submission(e, start + ttl + 1, w, ttl, false)]
  }

  /** Whatever envelope it is, if it verifies. */
  lemma ShortCacheReplays(w: int, ttl: int, e: Envelope)
    requires 0 <= w <= I64_MAX && 0 <= ttl < 2 * w
    requires e.signed && NonceValid(e.nonce) && e.createdAt == StartOf(w, ttl) + w
    ensures var run := EarlyRun(w, ttl, e);
      Clocked(run) && Uniform(run, w, ttl) && Replays(map[], run, 0, 1)
  {
    var run := EarlyRun(w, ttl, e);
    assert After(map[], run, 0) == map[];
    assert After(map[], run, 1) == Verified(map[], run[0]).0;
  }

  /** A service with window `w` and entry lifetime `ttl` is replay-free exactly when `ttl >= 2 * w`. */
  lemma ReplayFreeIff(w: int, ttl: int, hash: string, actor: AgentId, nonce: nat)
    requires 0 <= w <= I64_MAX && 0 <= ttl && NonceValid(nonce)
    ensures 2 * w <= ttl <==>
              forall run, i: nat, j: nat | Clocked(run) && Uniform(run, w, ttl) :: !Replays(map[], run, i, j)
  {
    if 2 * w <= ttl {
      forall run, i: nat, j: nat | Clocked(run) && Uniform(run, w, ttl)
        ensures !Replays(map[], run, i, j)
      {
        if Replays(map[], run, i, j) {
          NoReplay(map[], run, w, i, j);
        }
      }
    } else {
      ShortCacheReplays(w, ttl, Envelope(hash, actor, StartOf(w, ttl) + w, nonce, true));
    }
  }
}
